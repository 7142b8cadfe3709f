/** From the octets a client sends to what its command means. */
module EndToEnd {
  import opened Text
  import opened Reader
  import opened CommandWriter
  import opened Pieces
  import S = SearchSyntax
  import SearchParser
  import SearchEval
  import F = FetchSyntax
  import FetchParser
  import FetchTheorems
  import FetchText

  lemma {:induction false} ValuesConcat(a: seq<Piece>, b: seq<Piece>)
    ensures Values(a + b) == Values(a) + Values(b)
    decreases |a|
  {
    if a == [] {
      EmptyConcat(b);
      EmptyConcat(Values(b));
    } else {
      assert (a + b)[0] == a[0] && (a + b)[1..] == a[1..] + b;
      ValuesConcat(a[1..], b);
      ConcatAssoc([ValueOf(a[0].item)], Values(a[1..]), Values(b));
    }
  }

  /** The arguments behind the ones written first. */
  lemma ValuesBehind(a: seq<Piece>, b: seq<Piece>)
    ensures Values(a + b)[|a|..] == Values(b)
  {
    ValuesConcat(a, b);
    assert (Values(a) + Values(b))[|Values(a)|..] == Values(b);
  }

  /** However a client writes the tokens of a list of search keys behind its tag and
      the command's name, with any mix of atoms, quoted strings and literals, the
      server reads the command, takes the criteria for those keys, and matches a
      message exactly if all of them hold. */
  lemma SearchFromTheWire(head: seq<Piece>, ps: seq<Piece>, tail: string,
                          lib: S.Library, ks: seq<S.Key>, q: S.Query, memory: seq<string>)
    requires Writable(head + ps) && !Announces(Values(head + ps)) && Fits(head + ps, 0) && LiteralsArrive(head + ps)
    requires ks != [] && S.WellFormedList(lib, ks) && S.ExpandableList(ks)
    requires S.Lexemes(Values(ps)) == S.ListTokens(ks)
    ensures var r := ReadCommand(Write(head + ps) + tail, memory);
      && r.Done? && r.rest == tail && |r.args| >= |head|
      && var tree := SearchParser.ParseList(lib, None, S.Lexemes(r.args[|head|..]));
      tree.Ok? && tree.rest == [] && (SearchEval.Holds(tree.node, q) <==> S.MeaningAll(lib, ks, q))
  {
    hide *;
    ReadInvertsWrite(head + ps, tail, memory);
    ValuesBehind(head, ps);
    SearchEval.SearchCorrect(lib, ks, [], q);
    EmptyConcat(S.ListTokens(ks));
  }

  /** However a client writes the arguments of a FETCH list behind tag, name and message
      set, the server reads the command and compiles it to exactly the closures it asks
      for, if and only if plain RFC822 stands nowhere but at the end of the list and all
      header names are accepted. */
  lemma FetchFromTheWire(head: seq<Piece>, items: seq<F.Item>, ps: seq<Piece>, tail: string, isuid: bool,
                         memory: seq<string>)
    requires FetchTheorems.GoodList(items) && Values(ps) == Values(FetchText.ListRequest(items))
    requires Writable(head + ps) && !Announces(Values(head + ps)) && Fits(head + ps, 0) && LiteralsArrive(head + ps)
    ensures var r := ReadCommand(Write(head + ps) + tail, memory);
      && r.Done? && r.rest == tail && |r.args| >= |head|
      && (FetchText.ParseMacro(CutAll(r.args[|head|..], Some(F.DELIMITERS)), false, isuid)
          == FetchParser.Good(FetchTheorems.ListClosures(items, isuid), [")"])
          <==> FetchTheorems.Rfc822Last(items) && FetchTheorems.AllTaken(items))
  {
    var request := FetchText.ListRequest(items);
    hide *;
    ReadInvertsWrite(head + ps, tail, memory);
    ValuesBehind(head, ps);
    FetchText.RequestCompiles(items, isuid);
    PiecesAre(request);
  }

  lemma PiecesAre(ps: seq<Piece>)
    ensures FetchText.PiecesOf(ps) == CutAll(Values(ps), Some(F.DELIMITERS))
  {
  }
}
