/** `BODY[HEADER.FIELDS (...)]` and its negation: which header fields are sent, and
    the count of lines kept while they are collected. */
module HeaderFields {
  import opened Text
  import opened FetchIo

  datatype Field = Field(name: string, value: string)

  const COLON: string := [':', ' ']

  /** `mu_list_locate` with a comparison that ignores case: the client's spelling. */
  function Locate(names: seq<string>, name: string): (r: Option<string>)
    ensures r.Some? ==> r.value in names && CaseEq(r.value, name)
    ensures r.None? ==> forall n :: n in names ==> !CaseEq(n, name)
  {
    if names == [] then None
    else if CaseEq(names[0], name) then Some(names[0])
    else Locate(names[1..], name)
  }

  /** The name a field is sent under, if it is sent. */
  function Selected(names: seq<string>, negate: bool, f: Field): Option<string> {
    var found := Locate(names, f.name);
    if negate then (if found.None? then Some(f.name) else None) else found
  }

  function FieldLine(name: string, value: string): string {
    name + COLON + value + [LF]
  }

  function FieldsText(names: seq<string>, negate: bool, fields: seq<Field>): string {
    if fields == [] then []
    else
      var last := fields[|fields| - 1];
      FieldsText(names, negate, fields[..|fields| - 1])
      + (if Selected(names, negate, last).Some?
         then FieldLine(Selected(names, negate, last).value, last.value) else [])
  }

  lemma {:induction false} CountConcat(a: string, b: string)
    ensures CountNl(a + b) == CountNl(a) + CountNl(b)
  {
    if a == [] {
      EmptyConcat(b);
    } else {
      assert (a + b)[0] == a[0] && (a + b)[1..] == a[1..] + b;
      CountConcat(a[1..], b);
    }
  }

  lemma {:induction false} CountNone(s: string)
    requires LF !in s
    ensures CountNl(s) == 0
  {
    if s != [] { CountNone(s[1..]); }
  }

  /** `count_nl`: the loop over `strchr`. */
  method CountLines(s: string) returns (n: nat)
    ensures n == CountNl(s)
  {
    var at := 0;
    n := 0;
    assert s[0..] == s;
    while at < |s|
      invariant 0 <= at <= |s| && n + CountNl(s[at..]) == CountNl(s)
    {
      assert s[at..][0] == s[at] && s[at..][1..] == s[at + 1..];
      if s[at] == LF { n := n + 1; }
      at := at + 1;
    }
  }

  /** Names of header fields contain no line break, in any spelling. */
  lemma NameHasNoLine(a: string, b: string)
    requires CaseEq(a, b) && LF !in b
    ensures LF !in a
  {
    var u, v := Upper(a), Upper(b);
    forall i | 0 <= i < |a| ensures a[i] != LF {
      assert UpperChar(a[i]) == u[i] == v[i] == UpperChar(b[i]);
      assert b[i] != LF;
    }
  }

  lemma LineCount(name: string, value: string)
    requires LF !in name
    ensures CountNl(FieldLine(name, value)) == 1 + CountNl(value)
  {
    CountConcat(name + COLON + value, [LF]);
    CountConcat(name + COLON, value);
    CountConcat(name, COLON);
    CountNone(name);
    CountNone(COLON);
    assert [LF][1..] == [];
  }

  /** The collecting loop of `_frt_header_fields`: `lines` ends up as the number of
      line breaks in the text, so that size and lines together are the size sent. */
  method Collect(names: seq<string>, negate: bool, fields: seq<Field>) returns (text: string, lines: nat)
    requires forall i :: 0 <= i < |fields| ==> LF !in fields[i].name
    ensures text == FieldsText(names, negate, fields) + [LF]
    ensures |text| + lines == |Crlf(text)|
  {
    hide CountNl, FieldLine, Crlf;
    text, lines := [], 0;
    var i := 0;
    CountNone([]);
    while i < |fields|
      invariant 0 <= i <= |fields|
      invariant text == FieldsText(names, negate, fields[..i]) && lines == CountNl(text)
    {
      var f := fields[i];
      assert fields[..i + 1][..i] == fields[..i];
      EmptyConcat(text);
      var found := Locate(names, f.name);
      if (if negate then found.None? else found.Some?) {
        var item := if negate then f.name else found.value;
        NameHasNoLine(item, f.name);
        LineCount(item, f.value);
        CountConcat(text, FieldLine(item, f.value));
        var n := CountLines(f.value);
        text := text + FieldLine(item, f.value);
        lines := lines + 1 + n;
      }
      i := i + 1;
    }
    assert fields[..i] == fields;
    CountConcat(text, [LF]);
    OneLine();
    text := text + [LF];
    lines := lines + 1;
    CrlfSize(text);
  }

  lemma OneLine()
    ensures CountNl([LF]) == 1
  {
    assert [LF][1..] == [];
  }

  /** Whatever names are given, `HEADER.FIELDS` and `HEADER.FIELDS.NOT` share out the
      header between them: no field is left out and none is sent in both. */
  lemma {:induction false} FieldsShareTheHeader(names: seq<string>, fields: seq<Field>)
    ensures forall i :: 0 <= i < |fields| ==>
      (Selected(names, false, fields[i]).Some? <==> Selected(names, true, fields[i]).None?)
    ensures |FieldsText(names, false, fields)| + |FieldsText(names, true, fields)| == |FieldsText([], true, fields)|
    decreases |fields|
  {
    if fields != [] {
      var front, last := fields[..|fields| - 1], fields[|fields| - 1];
      FieldsShareTheHeader(names, front);
      var found := Locate(names, last.name);
      if found.Some? {
        assert |Upper(found.value)| == |Upper(last.name)|;
      }
    }
  }
}
