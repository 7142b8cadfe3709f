/** The FETCH parser as the program has it: functions that advance the parse buffer
    and fill in a closure, refining the parser over streams. */
module FetchMachine {
  import opened Text
  import opened Lexer
  import opened Tokbuf
  import opened Pieces
  import opened FetchSyntax
  import opened FetchParser

  class FetchReader {
    const pb: ParseBuf
    const isuid: bool
    var ffc: Closure
    var fnlist: seq<Closure>
    var error: Error
    ghost var ts: Stream

    /** The stream begins with the current token; what follows it is what the parse
        buffer has not handed out. */
    ghost predicate Valid()
      reads this`ts, pb
    {
      && pb.Valid()
      && (ts == [] <==> pb.token.None?)
      && (ts != [] ==> ts[1..] == pb.Remaining() && ArgAt(pb.buffer, pb.token.value, |pb.buffer|, ts[0]))
    }

    constructor (pb: ParseBuf, isuid: bool)
      requires pb.Valid() && pb.token.None?
      ensures Valid() && this.pb == pb && this.isuid == isuid && ts == [] && fnlist == []
    {
      this.pb, this.isuid := pb, isuid;
      ffc, fnlist, error, ts := Fresh(Body, Name.Section), [], Syntax, [];
    }

    /** `imap4d_parsebuf_next`. */
    method Advance(req: bool) returns (ok: bool)
      requires Valid()
      modifies this`ts, this`error, pb
      ensures Valid() && ts == old(pb.Remaining())
      ensures ok <==> ts != [] || !req
      ensures !ok ==> error == TooFew
    {
      ghost var rest := pb.Remaining();
      var r;
      r, ok := pb.Next(req);
      ts := rest;
      if !ok { error := TooFew; }
    }

    /** Taking the next token when there is one to leave. */
    method Need1() returns (ok: bool)
      requires Valid() && ts != []
      modifies this`ts, this`error, pb
      ensures Valid()
      ensures ok <==> Need(old(ts)).Good?
      ensures ok ==> ts == old(ts)[1..] && ts != []
      ensures !ok ==> error == TooFew
    {
      ok := Advance(true);
    }

    method Skip1()
      requires Valid() && ts != []
      modifies this`ts, this`error, pb
      ensures Valid() && ts == Skip(old(ts)) && error == old(error)
    {
      var e := error;
      var ok := Advance(false);
      error := e;
    }

    method Token() returns (t: string)
      requires Valid() && ts != []
      ensures t == ts[0]
    {
      StringAt(pb.buffer, pb.token.value, |pb.buffer|, ts[0]);
      t := CStr(pb.buffer[pb.token.value..]);
    }

    method TokenIs(c: char) returns (yes: bool)
      requires Valid()
      ensures yes <==> At(ts, c)
    {
      if pb.token.None? { return false; }
      var t := Token();
      yes := |t| > 0 && t[0] == c;
    }

    /** Is the token null? */
    method NoToken() returns (yes: bool)
      requires Valid()
      ensures yes <==> ts == []
    {
      yes := pb.token.None?;
    }

    method TokenKey() returns (k: Keyword)
      requires Valid() && ts != []
      ensures k == KeyOf(ts)
    {
      var t := Token();
      k := KeywordOf(t);
    }

    method PeekDigit() returns (yes: bool)
      requires Valid() && ts != []
      modifies pb
      ensures Valid()
      ensures yes <==> |ts| > 1 && ts[1] != [] && IsDigit(ts[1][0])
    {
      var p := pb.Peek();
      yes := p.Some? && |p.value| > 0 && IsDigit(p.value[0]);
      assert ts[1..] == pb.Remaining();
    }

    /** `parse_header_list`. */
    method HeaderList() returns (ok: bool)
      requires Valid() && ts != []
      modifies this`ts, this`error, this`ffc, pb
      ensures Valid() && ffc == old(ffc).(headers := ffc.headers)
      ensures ParseHeaderList(old(ts)) == (if ok then Good(ffc.headers, ts) else Bad(error))
    {
      hide Valid, ParseNames;
      var open := TokenIs('(');
      if !open { error := ExpectedOpen; return false; }
      ok := Need1();
      if ok { ok := Names(); }
    }

    /** Its loop. */
    method Names() returns (ok: bool)
      requires Valid() && ts != []
      modifies this`ts, this`error, this`ffc, pb
      ensures Valid() && ffc == old(ffc).(headers := ffc.headers)
      ensures ParseNames(old(ts)) == (if ok then Good(ffc.headers, ts) else Bad(error))
    {
      hide Valid, ParseNames, SoFar, Need;
      ghost var start := ts;
      ffc := ffc.(headers := []);
      NothingSoFar(ParseNames(ts));
      while true
        invariant Valid() && ts != []
        invariant ffc == old(ffc).(headers := ffc.headers)
        invariant SoFar(ParseNames(start), ffc.headers, ParseNames(ts))
        decreases |ts|
      {
        NamesStep(start, ffc.headers, ts);
        var t := Token();
        var close := TokenIs(')');
        if close { ok := Need1(); return; }
        if |t| == 1 && t[0] in "()[]<>." { error := UnexpectedDelimiter; return false; }
        ok := Need1();
        if !ok { return; }
        ffc := ffc.(headers := ffc.headers + [t]);
      }
    }

    /** `[".NOT"]`. */
    method Negation() returns (ok: bool)
      requires Valid() && ts != []
      modifies this`ts, this`error, this`ffc, pb
      ensures Valid() && ffc == old(ffc).(negate := ffc.negate)
      ensures old(ffc).negate == false ==>
        ParseNot(old(ts)) == (if ok then Good(ffc.negate, ts) else Bad(error)) && (ok ==> ts != [])
    {
      hide Valid, KeywordOf;
      var dot := TokenIs('.');
      if !dot { return true; }
      ok := Need1();
      if !ok { return; }
      var k := TokenKey();
      if k != NOT { error := ExpectedNot; return false; }
      ffc := ffc.(negate := true);
      ok := Need1();
    }

    /** `HEADER.FIELDS` behind its dot. */
    method HeaderFieldsText() returns (ok: bool)
      requires Valid() && ts != [] && !ffc.negate
      modifies this`ts, this`error, this`ffc, pb
      ensures Valid()
      ensures ParseFields(old(ts), old(ffc)) == (if ok then Good(ffc, ts) else Bad(error))
    {
      hide Valid, KeywordOf, ParseNot, ParseHeaderList;
      ghost var c := ffc;
      var k := TokenKey();
      if k != FIELDS { error := ExpectedFields; return false; }
      ffc := ffc.(fun := HeaderFields);
      ok := Need1();
      if !ok { return; }
      ok := Negation();
      if !ok { return; }
      ok := HeaderList();
    }

    /** `parse_section_text`; `found` is false where the source returns 1. */
    method SectionText(allowMime: bool) returns (ok: bool, found: bool)
      requires Valid() && ts != [] && !ffc.negate
      modifies this`ts, this`error, this`ffc, pb
      ensures Valid() && (ok && !found ==> ffc == old(ffc) && ts == old(ts))
      ensures ParseSectionText(old(ts), old(ffc), allowMime)
        == (if !ok then Bad(error) else Good(if found then Some(ffc) else None, ts))
    {
      hide Valid, KeywordOf, ParseFields;
      found := true;
      var k := TokenKey();
      if k == HEADER {
        ok := Need1();
        if !ok { return; }
        var dot := TokenIs('.');
        if dot {
          ok := Need1();
          if !ok { return; }
          ok := HeaderFieldsText();
        } else {
          ffc := ffc.(fun := Header, tag := Some(HEADER));
        }
      } else if k == TEXT {
        ok := Need1();
        ffc := ffc.(fun := BodyText, tag := Some(TEXT));
      } else if allowMime && k == MIME {
        ok := Need1();
        ffc := ffc.(fun := Mime, tag := Some(MIME));
      } else {
        return true, false;
      }
    }

    /** `parse_section_part`. */
    method SectionPart() returns (ok: bool)
      requires Valid() && ts != []
      modifies this`ts, this`error, this`ffc, pb
      ensures Valid() && ffc == old(ffc).(parts := ffc.parts)
      ensures ParseParts(old(ts)) == (if ok then Good(ffc.parts, ts) else Bad(error))
      ensures ok ==> ts != []
    {
      hide Valid, ParseParts, SoFar, GetNumber;
      ghost var start := ts;
      var parts: seq<nat> := [];
      NothingSoFar(ParseParts(ts));
      while true
        invariant Valid() && ts != [] && ffc == old(ffc)
        invariant SoFar(ParseParts(start), parts, ParseParts(ts))
        decreases |ts|
      {
        PartsStep(start, parts, ts);
        var t := Token();
        var n := GetNumber(t);
        if n.None? { error := ExpectedNumber; return false; }
        parts := parts + [n.value];
        ok := Need1();
        if !ok { return; }
        var dot := TokenIs('.');
        var more := false;
        if dot { more := PeekDigit(); }
        if !more { break; }
        ok := Need1();
      }
      ffc := ffc.(parts := parts);
      ok := true;
    }

    /** A section that begins with a part number. */
    method PartSection() returns (ok: bool)
      requires Valid() && ts != [] && !ffc.negate
      modifies this`ts, this`error, this`ffc, pb
      ensures Valid()
      ensures ParsePartSection(old(ts), old(ffc)) == (if ok then Good(ffc, ts) else Bad(error))
    {
      hide Valid, ParseParts, ParseSectionText;
      ok := SectionPart();
      if !ok { return; }
      var dot := TokenIs('.');
      if dot {
        ok := Need1();
        if !ok { return; }
        var found;
        ok, found := SectionText(true);
      } else {
        ffc := ffc.(fun := BodyN);
      }
    }

    /** What stands between the brackets. */
    method Spec() returns (ok: bool)
      requires Valid() && ts != [] && !ffc.negate
      modifies this`ts, this`error, this`ffc, pb
      ensures Valid()
      ensures ParseSpec(old(ts), old(ffc)) == (if ok then Good(ffc, ts) else Bad(error))
    {
      hide Valid, ParseSectionText, ParsePartSection;
      var found;
      ok, found := SectionText(false);
      if !ok || found { return; }
      var t := Token();
      if |t| > 0 && t[0] == ']' {
        ffc := ffc.(fun := Body);
      } else if |t| > 0 && IsDigit(t[0]) {
        ok := PartSection();
      } else {
        error := Syntax;
        ok := false;
      }
    }

    /** `parse_section`. */
    method Section() returns (ok: bool, found: bool)
      requires Valid() && ts != []
      modifies this`ts, this`error, this`ffc, pb
      ensures Valid() && (ok && !found ==> ts == old(ts))
      ensures ParseSection(old(ts)) == (if !ok then Bad(error) else Good(if found then Some(ffc) else None, ts))
    {
      hide Valid, ParseSpec;
      found := true;
      var open := TokenIs('[');
      if !open { return true, false; }
      ffc := Fresh(BodyText, Name.Section);
      ok := Need1();
      if !ok { return; }
      ok := Spec();
      if !ok { return; }
      var close := TokenIs(']');
      if !close { error := MissingBracket; return false, true; }
      Skip1();
    }

    /** `parsebuf_get_number`. */
    method Number() returns (ok: bool, n: nat)
      requires Valid() && ts != []
      modifies this`error
      ensures ok <==> GetNumber(ts[0]).Some?
      ensures ok ==> n == GetNumber(ts[0]).value
      ensures !ok ==> error == ExpectedNumber
    {
      var t := Token();
      var r := GetNumber(t);
      if r.None? { error := ExpectedNumber; return false, 0; }
      ok, n := true, r.value;
    }

    /** `parse_substring`. */
    method Substring() returns (ok: bool)
      requires Valid()
      modifies this`ts, this`error, this`ffc, pb
      ensures Valid()
      ensures ParseSubstring(old(ts), old(ffc)) == (if ok then Good(ffc, ts) else Bad(error))
    {
      hide Valid, GetNumber;
      ghost var s := ts;
      var open := TokenIs('<');
      if !open { return true; }
      var start, size, sign;
      ok := Need1();
      if !ok { return; }
      assert ts == s[1..];
      ok, start := Number();
      if !ok { return; }
      ffc := ffc.(start := start);
      ok := Need1();
      if !ok { return; }
      assert ts == s[2..];
      sign := TokenIs('.');
      if !sign { error := ExpectedDot; return false; }
      ok := Need1();
      if !ok { return; }
      assert ts == s[3..];
      ok, size := Number();
      if !ok { return; }
      ffc := ffc.(size := size);
      ok := Need1();
      if !ok { return; }
      assert ts == s[4..];
      sign := TokenIs('>');
      if !sign { error := ExpectedGreater; return false; }
      Skip1();
      assert ts == s[5..];
    }

    /** `parse_body_args`. */
    method BodyArgs(peek: bool) returns (ok: bool, found: bool)
      requires Valid() && ts != []
      modifies this`ts, this`error, this`ffc, this`fnlist, pb
      ensures Valid() && (ok && !found ==> ts == old(ts) && fnlist == old(fnlist))
      ensures ok && found ==> fnlist == old(fnlist) + [ffc]
      ensures ParseBodyArgs(old(ts), peek) == (if !ok then Bad(error) else Good(if found then Some(ffc) else None, ts))
    {
      hide Valid, ParseSection, ParseSubstring;
      ok, found := Section();
      if !ok || !found { return; }
      ok := Substring();
      if !ok { return; }
      ffc := ffc.(peek := peek);
      fnlist := fnlist + [ffc];
    }

    /** `parse_body_peek`. */
    method BodyPeek() returns (ok: bool)
      requires Valid() && ts != []
      modifies this`ts, this`error, this`ffc, this`fnlist, pb
      ensures Valid() && (ok ==> fnlist == old(fnlist) + [ffc])
      ensures ParseBodyPeek(old(ts)) == (if ok then Good(ffc, ts) else Bad(error))
    {
      hide Valid, ParseBodyArgs, KeywordOf;
      ok := Need1();
      if !ok { return; }
      var k := TokenKey();
      if k != PEEK { error := ExpectedPeek; return false; }
      ok := Need1();
      if !ok { return; }
      var found;
      ok, found := BodyArgs(true);
      if ok && !found { error := Syntax; ok := false; }
    }

    method Append(c: Closure)
      modifies this`fnlist, this`ffc
      ensures fnlist == old(fnlist) + [c] && ffc == c
    {
      ffc := c;
      fnlist := fnlist + [c];
    }

    /** `parse_fetch_body`, behind `BODY`. */
    method FetchBody() returns (ok: bool)
      requires Valid()
      modifies this`ts, this`error, this`ffc, this`fnlist, pb
      ensures Valid() && (ok ==> fnlist == old(fnlist) + [ffc])
      ensures ParseBody(old(ts)) == (if ok then Good(ffc, ts) else Bad(error))
    {
      hide Valid, ParseBodyArgs, ParseBodyPeek, KeywordOf;
      ok := true;
      var none := NoToken();
      if none { Append(BARE_BODY); return; }
      var close := TokenIs(')');
      if close { Append(BARE_BODY); return; }
      var dot := TokenIs('.');
      if dot { ok := BodyPeek(); return; }
      var k := TokenKey();
      if k == STRUCTURE {
        Append(BODY_STRUCTURE);
        Skip1();
        return;
      }
      var found;
      ok, found := BodyArgs(false);
      if ok && !found { Append(BARE_BODY); }
    }

    /** `parse_fetch_rfc822`, behind `RFC822`. */
    method FetchRfc822() returns (ok: bool)
      requires Valid()
      modifies this`ts, this`error, this`ffc, this`fnlist, pb
      ensures Valid() && (ok ==> fnlist == old(fnlist) + [ffc])
      ensures ParseRfc822(old(ts)) == (if ok then Good(ffc, ts) else Bad(error))
    {
      hide Valid, KeywordOf;
      ok := true;
      ffc := Fresh(Body, Named(RFC822, None));
      var dot;
      var close := NoToken();
      if !close { close := TokenIs(')'); }
      if !close {
        dot := TokenIs('.');
        if !dot { error := AfterRfc822; return false; }
        ok := Need1();
        if !ok { return; }
        var k := TokenKey();
        if k == HEADER {
          ffc := Fresh(Header, Named(RFC822, Some(HEADER))).(peek := true);
        } else if k == SIZE {
          ffc := Fresh(Size, Named(RFC822, Some(SIZE)));
        } else if k == TEXT {
          ffc := Fresh(BodyText, Named(RFC822, Some(TEXT)));
        } else {
          error := AfterRfc822Dot;
          return false;
        }
        Skip1();
      }
      fnlist := fnlist + [ffc];
    }

    /** `parse_fetch_att`; `found` is false where the source returns 1. */
    method FetchAtt() returns (ok: bool, found: bool, ghost cs: seq<Closure>)
      requires Valid() && ts != []
      modifies this`ts, this`error, this`ffc, this`fnlist, pb
      ensures Valid() && (ok ==> fnlist == old(fnlist) + cs)
      ensures ParseAtt(old(ts), isuid) == (if !ok then Bad(error) else Good(if found then Some(cs) else None, ts))
      ensures ok && !found ==> cs == []
    {
      hide Valid, KeywordOf, ParseBody, ParseRfc822;
      ok, found, cs := true, true, [];
      EmptyConcat(fnlist);
      var k := TokenKey();
      if k in {ENVELOPE, FLAGS, INTERNALDATE, UID} {
        if !(k == UID && isuid) {
          Append(Fresh(Attribute(k), Named(k, None)));
          cs := [ffc];
        }
        Skip1();
      } else if k == RFC822 {
        Skip1();
        ok := FetchRfc822();
        cs := [ffc];
      } else if k == BODY {
        Skip1();
        ok := FetchBody();
        cs := [ffc];
      } else if k == BODYSTRUCTURE {
        Append(BODY_STRUCTURE);
        cs := [ffc];
        Skip1();
      } else {
        found := false;
      }
    }

    /** `parse_fetch_att_list`. */
    method FetchAttList() returns (ok: bool, ghost cs: seq<Closure>)
      requires Valid()
      modifies this`ts, this`error, this`ffc, this`fnlist, pb
      ensures Valid() && (ok ==> fnlist == old(fnlist) + cs)
      ensures ParseAttList(old(ts), isuid) == (if ok then Good(cs, ts) else Bad(error))
    {
      hide Valid, ParseAtt, ParseAttList, SoFar;
      ok, cs := true, [];
      EmptyConcat(fnlist);
      ghost var start := ts;
      NothingSoFar(ParseAttList(ts, isuid));
      var none := NoToken();
      while !none
        invariant Valid() && (none <==> ts == []) && ok && fnlist == old(fnlist) + cs
        invariant SoFar(ParseAttList(start, isuid), cs, ParseAttList(ts, isuid))
        decreases |ts|
      {
        AttStep(start, cs, ts, isuid);
        ghost var more;
        var found;
        ok, found, more := FetchAtt();
        if !ok { return; }
        ConcatAssoc(old(fnlist), cs, more);
        if !found { return; }
        cs := cs + more;
        none := NoToken();
      }
      ListEnds0(start, cs, isuid);
    }
  }

  /** The result for a whole list, from the items so far and the result for the rest. */
  predicate SoFar<T(==)>(all: Parsed<seq<T>>, done: seq<T>, rest: Parsed<seq<T>>) {
    match rest
    case Bad(e) => all == Bad(e)
    case Good(more, ts) => all == Good(done + more, ts)
  }

  lemma NothingSoFar<T>(all: Parsed<seq<T>>)
    ensures SoFar(all, [], all)
  {
    if all.Good? { EmptyConcat(all.value); }
  }

  lemma NamesStep(start: Stream, names: seq<string>, ts: Stream)
    requires start != [] && ts != [] && SoFar(ParseNames(start), names, ParseNames(ts))
    ensures Need(ts).Good? <==> |ts| > 1
    ensures At(ts, ')') ==>
      ParseNames(start) == (if Need(ts).Good? then Good(names, ts[1..]) else Bad(TooFew))
    ensures !At(ts, ')') && |ts[0]| == 1 && ts[0][0] in "()[]<>." ==> ParseNames(start) == Bad(UnexpectedDelimiter)
    ensures !At(ts, ')') && !(|ts[0]| == 1 && ts[0][0] in "()[]<>.") && |ts| < 2 ==> ParseNames(start) == Bad(TooFew)
    ensures !At(ts, ')') && !(|ts[0]| == 1 && ts[0][0] in "()[]<>.") && |ts| > 1 ==>
      SoFar(ParseNames(start), names + [ts[0]], ParseNames(ts[1..]))
  {
    EmptyConcat(names);
    if !At(ts, ')') && !(|ts[0]| == 1 && ts[0][0] in "()[]<>.") && |ts| > 1 {
      match ParseNames(ts[1..])
      case Bad(e) =>
      case Good(more, rest) => ConcatAssoc(names, [ts[0]], more);
    }
  }

  lemma PartsStep(start: Stream, parts: seq<nat>, ts: Stream)
    requires start != [] && ts != [] && SoFar(ParseParts(start), parts, ParseParts(ts))
    ensures GetNumber(ts[0]).None? ==> ParseParts(start) == Bad(ExpectedNumber)
    ensures GetNumber(ts[0]).Some? && |ts| < 2 ==> ParseParts(start) == Bad(TooFew)
    ensures GetNumber(ts[0]).Some? && |ts| > 1 ==>
      var t1, n := ts[1..], GetNumber(ts[0]).value;
      if At(t1, '.') && |t1| > 1 && t1[1] != [] && IsDigit(t1[1][0])
      then SoFar(ParseParts(start), parts + [n], ParseParts(t1[1..]))
      else ParseParts(start) == Good(parts + [n], t1)
  {
    if GetNumber(ts[0]).Some? && |ts| > 1 {
      var t1, n := ts[1..], GetNumber(ts[0]).value;
      if At(t1, '.') && |t1| > 1 && t1[1] != [] && IsDigit(t1[1][0]) {
        match ParseParts(t1[1..])
        case Bad(e) =>
        case Good(more, rest) => ConcatAssoc(parts, [n], more);
      }
    }
  }

  lemma AttStep(start: Stream, cs: seq<Closure>, ts: Stream, isuid: bool)
    requires ts != [] && SoFar(ParseAttList(start, isuid), cs, ParseAttList(ts, isuid))
    ensures ParseAtt(ts, isuid).Bad? ==> ParseAttList(start, isuid) == Bad(ParseAtt(ts, isuid).error)
    ensures ParseAtt(ts, isuid).Good? && ParseAtt(ts, isuid).value.None? ==>
      ParseAttList(start, isuid) == Good(cs, ParseAtt(ts, isuid).rest)
    ensures ParseAtt(ts, isuid).Good? && ParseAtt(ts, isuid).value.Some? ==>
      var r := ParseAtt(ts, isuid);
      |r.rest| < |ts| && SoFar(ParseAttList(start, isuid), cs + r.value.value, ParseAttList(r.rest, isuid))
  {
    hide ParseAtt;
    EmptyConcat(cs);
    var r := ParseAtt(ts, isuid);
    if r.Good? && r.value.Some? {
      match ParseAttList(r.rest, isuid)
      case Bad(e) =>
      case Good(more, rest) => ConcatAssoc(cs, r.value.value, more);
    }
  }

  lemma ListEnds0(start: Stream, cs: seq<Closure>, isuid: bool)
    requires SoFar(ParseAttList(start, isuid), cs, ParseAttList([], isuid))
    ensures ParseAttList(start, isuid) == Good(cs, [])
  {
    EmptyConcat(cs);
  }
}
