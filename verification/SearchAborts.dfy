/** When the SEARCH compiler calls `abort`. */
module SearchAborts {
  import opened Text
  import opened SearchSyntax
  import opened SearchParser

  lemma {:induction false} KeyAborts(lib: Library, k: Key, rest: seq<Token>)
    requires WellFormed(lib, k) && !Expandable(k)
    ensures ParseKey(lib, Tokens(k) + rest) == Abort
    decreases k, 1
  {
    match k
    case NotKey(w, a) =>
      ConcatAssoc([w], Tokens(a), rest);
      ConsDrop(w, Tokens(a) + rest);
      KeyAborts(lib, a, rest);
    case OrKey(_, l, r) => OrAborts(lib, k, rest);
    case GroupKey(o, ks, c) =>
      ConcatAssoc([o] + ListTokens(ks), [c], rest);
      ConcatAssoc([o], ListTokens(ks), [c] + rest);
      ConsDrop(o, ListTokens(ks) + ([c] + rest));
      ListAborts(lib, None, ks, [c] + rest);
    case MacroKey(_) =>
      UnkeywordExpansionFails(lib);
  }

  lemma {:induction false} OrAborts(lib: Library, k: Key, rest: seq<Token>)
    requires k.OrKey? && WellFormed(lib, k) && !Expandable(k)
    ensures (Tokens(k) + rest)[0] == k.word
    ensures ParseOr(lib, Tokens(k) + rest) == Abort
    decreases k, 0
  {
    var l, r := Tokens(k.left), Tokens(k.right);
    ConcatAssoc([k.word] + l, r, rest);
    ConcatAssoc([k.word], l, r + rest);
    ConsDrop(k.word, l + (r + rest));
    if Expandable(k.left) {
      KeyComplete(lib, k.left, r + rest);
      KeyAborts(lib, k.right, rest);
    } else {
      KeyAborts(lib, k.left, r + rest);
    }
  }

  lemma {:induction false} ListAborts(lib: Library, left: Option<Node>, ks: seq<Key>, rest: seq<Token>)
    requires WellFormedList(lib, ks) && !ExpandableList(ks)
    ensures ParseList(lib, left, ListTokens(ks) + rest) == Abort
    decreases ks, 0
  {
    var more := ListTokens(ks[1..]) + rest;
    ConcatAssoc(Tokens(ks[0]), ListTokens(ks[1..]), rest);
    if Expandable(ks[0]) {
      KeyComplete(lib, ks[0], more);
      ListAborts(lib, Some(Join(left, Compile(lib, ks[0]))), ks[1..], rest);
    } else {
      KeyAborts(lib, ks[0], more);
    }
  }

  /** Of the well-formed statements, those abort that use `UNKEYWORD` as a key. */
  lemma KeysAbort(lib: Library, ks: seq<Key>)
    requires WellFormedList(lib, ks) && ks != []
    ensures ParseList(lib, None, ListTokens(ks)) == Abort <==> !ExpandableList(ks)
  {
    EmptyConcat(ListTokens(ks));
    if ExpandableList(ks) {
      ListComplete(lib, None, ks, []);
    } else {
      ListAborts(lib, None, ks, []);
    }
  }

  /** The way from the place of a key to an `UNKEYWORD`: it stands there itself, or
      behind NOT or OR, or behind some keys of a group.  Nothing is said of what
      follows; the group need not even be closed. */
  datatype Path =
    | Here(word: Token)
    | BehindNot(word: Token, path: Path)
    | BehindOr(word: Token, path: Path)
    | BehindLeft(word: Token, left: Key, path: Path)
    | InGroup(open: Token, keys: seq<Key>, path: Path)

  function PathTokens(p: Path): (ts: seq<Token>)
    ensures |ts| > 0
  {
    match p
    case Here(w) => [w]
    case BehindNot(w, q) => [w] + PathTokens(q)
    case BehindOr(w, q) => [w] + PathTokens(q)
    case BehindLeft(w, k, q) => [w] + (Tokens(k) + PathTokens(q))
    case InGroup(o, ks, q) => [o] + (ListTokens(ks) + PathTokens(q))
  }

  predicate GoodPath(lib: Library, p: Path)
    decreases p, 0
  {
    match p
    case Here(w) => w.word == MacroWord(UNKEYWORD)
    case BehindNot(w, q) => w.word == NotWord && GoodPath(lib, q)
    case BehindOr(w, q) => w.word == OrWord && GoodPath(lib, q)
    case BehindLeft(w, k, q) => w.word == OrWord && WellFormed(lib, k) && Expandable(k) && GoodPath(lib, q)
    case InGroup(o, ks, q) => o.word == OpenWord && Reaches(lib, ks, q)
  }

  /** Well-formed keys, and then a path at the place of the next key. */
  predicate Reaches(lib: Library, ks: seq<Key>, p: Path)
    decreases p, 1
  {
    WellFormedList(lib, ks) && ExpandableList(ks) && GoodPath(lib, p) && !Closes(PathTokens(p)[0])
  }

  lemma {:induction false} PathAborts(lib: Library, p: Path, rest: seq<Token>)
    requires GoodPath(lib, p)
    ensures ParseKey(lib, PathTokens(p) + rest) == Abort
    decreases p
  {
    match p
    case Here(w) =>
      ConsDrop(w, rest);
      UnkeywordExpansionFails(lib);
    case BehindNot(w, q) =>
      ConcatAssoc([w], PathTokens(q), rest);
      ConsDrop(w, PathTokens(q) + rest);
      PathAborts(lib, q, rest);
    case BehindOr(w, q) =>
      ConcatAssoc([w], PathTokens(q), rest);
      ConsDrop(w, PathTokens(q) + rest);
      PathAborts(lib, q, rest);
    case BehindLeft(w, k, q) =>
      ConcatAssoc([w], Tokens(k) + PathTokens(q), rest);
      ConcatAssoc(Tokens(k), PathTokens(q), rest);
      ConsDrop(w, Tokens(k) + (PathTokens(q) + rest));
      KeyComplete(lib, k, PathTokens(q) + rest);
      PathAborts(lib, q, rest);
    case InGroup(o, ks, q) =>
      ConcatAssoc([o], ListTokens(ks) + PathTokens(q), rest);
      ConcatAssoc(ListTokens(ks), PathTokens(q), rest);
      ConsDrop(o, ListTokens(ks) + (PathTokens(q) + rest));
      PathAborts(lib, q, rest);
      AbortsBehindKeys(lib, None, ks, PathTokens(q) + rest);
  }

  lemma {:induction false} AbortsBehindKeys(lib: Library, left: Option<Node>, ks: seq<Key>, toks: seq<Token>)
    requires WellFormedList(lib, ks) && ExpandableList(ks)
    requires toks != [] && !Closes(toks[0]) && ParseKey(lib, toks) == Abort
    ensures ParseList(lib, left, ListTokens(ks) + toks) == Abort
    decreases |ks|
  {
    if ks == [] {
      EmptyConcat(toks);
    } else {
      var more := ListTokens(ks[1..]) + toks;
      ConcatAssoc(Tokens(ks[0]), ListTokens(ks[1..]), toks);
      KeyComplete(lib, ks[0], more);
      AbortsBehindKeys(lib, Some(Join(left, Compile(lib, ks[0]))), ks[1..], toks);
    }
  }

  /** Wherever `parse_search_key` aborts, there is a path to an `UNKEYWORD`. */
  lemma {:induction false} KeyAbortPath(lib: Library, toks: seq<Token>) returns (p: Path, rest: seq<Token>)
    requires toks != [] && ParseKey(lib, toks) == Abort
    ensures GoodPath(lib, p) && toks == PathTokens(p) + rest
    decreases MaxRank(toks), |toks|, 1
  {
    var w := toks[0];
    HeadTail(toks);
    RankOfSuffix(toks, 1);
    match w.word
    case OpenWord =>
      var ks, q;
      ks, q, rest := ListAbortPath(lib, None, toks[1..]);
      p := InGroup(w, ks, q);
      ConcatAssoc([w], ListTokens(ks) + PathTokens(q), rest);
    case NotWord =>
      var q;
      q, rest := KeyAbortPath(lib, toks[1..]);
      p := BehindNot(w, q);
      ConcatAssoc([w], PathTokens(q), rest);
    case OrWord => p, rest := OrAbortPath(lib, toks);
    case MacroWord(m) =>
      p, rest := Here(w), toks[1..];
      if m != UNKEYWORD { MacroParses(lib, m); }
  }

  lemma OrAbortCases(lib: Library, toks: seq<Token>)
    requires toks != [] && ParseOr(lib, toks) == Abort
    ensures toks[1..] != []
    ensures var left := ParseKey(lib, toks[1..]);
      left == Abort || (left.Ok? && left.rest != [] && ParseKey(lib, left.rest) == Abort)
  {
    hide ParseKey;
  }

  lemma {:induction false} OrAbortPath(lib: Library, toks: seq<Token>) returns (p: Path, rest: seq<Token>)
    requires toks != [] && toks[0].word == OrWord && ParseOr(lib, toks) == Abort
    ensures GoodPath(lib, p) && toks == PathTokens(p) + rest
    decreases MaxRank(toks), |toks|, 0
  {
    hide ParseOr, ParseKey, MaxRank, Tokens, Compile;
    var w := toks[0];
    var q;
    HeadTail(toks);
    RankOfSuffix(toks, 1);
    OrAbortCases(lib, toks);
    var left := ParseKey(lib, toks[1..]);
    if left.Ok? {
      var k := KeySound(lib, toks[1..]);
      RankOfSuffix(toks[1..], |toks[1..]| - |left.rest|);
      q, rest := KeyAbortPath(lib, left.rest);
      p := BehindLeft(w, k, q);
      ConcatAssoc(Tokens(k), PathTokens(q), rest);
      ConcatAssoc([w], Tokens(k) + PathTokens(q), rest);
    } else {
      q, rest := KeyAbortPath(lib, toks[1..]);
      p := BehindOr(w, q);
      ConcatAssoc([w], PathTokens(q), rest);
    }
  }

  lemma {:induction false} ListAbortPath(lib: Library, left: Option<Node>, toks: seq<Token>)
    returns (ks: seq<Key>, p: Path, rest: seq<Token>)
    requires ParseList(lib, left, toks) == Abort
    ensures Reaches(lib, ks, p) && toks == ListTokens(ks) + PathTokens(p) + rest
    decreases MaxRank(toks), |toks|, 2
  {
    var first := ParseKey(lib, toks);
    if first.Ok? {
      var k := KeySound(lib, toks);
      RankOfSuffix(toks, |toks| - |first.rest|);
      var more;
      more, p, rest := ListAbortPath(lib, Some(Join(left, first.node)), first.rest);
      ks := [k] + more;
      ConsDrop(k, more);
      ConcatAssoc(Tokens(k), ListTokens(more) + PathTokens(p), rest);
      ConcatAssoc(Tokens(k), ListTokens(more), PathTokens(p));
    } else {
      p, rest := KeyAbortPath(lib, toks);
      PathStarts(p, rest);
      ks := [];
      EmptyConcat(PathTokens(p));
    }
  }

  lemma PathStarts(p: Path, rest: seq<Token>)
    ensures (PathTokens(p) + rest)[0] == PathTokens(p)[0]
  {
  }

  /** The branch marked "shouldn't happen?" in `parse_equiv_key` is reached, by any
      statement whatsoever, exactly if well-formed keys lead to an `UNKEYWORD` in the
      place of a key. */
  lemma AbortsExactlyOnUnkeyword(lib: Library, toks: seq<Token>)
    ensures ParseList(lib, None, toks) == Abort <==>
            exists ks, p, rest :: Reaches(lib, ks, p) && toks == ListTokens(ks) + PathTokens(p) + rest
  {
    if ParseList(lib, None, toks) == Abort {
      var ks, p, rest := ListAbortPath(lib, None, toks);
    }
    if ks, p, rest :| Reaches(lib, ks, p) && toks == ListTokens(ks) + PathTokens(p) + rest {
      PathAborts(lib, p, rest);
      PathStarts(p, rest);
      ConcatAssoc(ListTokens(ks), PathTokens(p), rest);
      AbortsBehindKeys(lib, None, ks, PathTokens(p) + rest);
    }
  }

  lemma {:induction false} PathEndsInUnkeyword(lib: Library, p: Path)
    requires GoodPath(lib, p)
    ensures exists w :: w in PathTokens(p) && w.word == MacroWord(UNKEYWORD)
    decreases p, 1
  {
    match p
    case Here(w) => assert w in PathTokens(p);
    case BehindNot(_, q) => PathInside(lib, p, q);
    case BehindOr(_, q) => PathInside(lib, p, q);
    case BehindLeft(_, _, q) => PathInside(lib, p, q);
    case InGroup(_, _, q) => PathInside(lib, p, q);
  }

  lemma {:induction false} PathInside(lib: Library, p: Path, q: Path)
    requires GoodPath(lib, q) && q < p && forall w :: w in PathTokens(q) ==> w in PathTokens(p)
    ensures exists w :: w in PathTokens(p) && w.word == MacroWord(UNKEYWORD)
    decreases p, 0
  {
    PathEndsInUnkeyword(lib, q);
  }

  /** Without that word no statement aborts, however ill formed. */
  lemma NoUnkeywordNoAbort(lib: Library, left: Option<Node>, toks: seq<Token>)
    requires forall w :: w in toks ==> w.word != MacroWord(UNKEYWORD)
    ensures ParseList(lib, left, toks) != Abort
  {
    if ParseList(lib, left, toks) == Abort {
      var ks, p, rest := ListAbortPath(lib, left, toks);
      PathEndsInUnkeyword(lib, p);
    }
  }

  /** The form section 6.4.4 of RFC 3501 gives: UNKEYWORD and a flag. */
  lemma UnkeywordFlagAborts(lib: Library, w: Token, flag: Token, rest: seq<Token>)
    requires w.word == MacroWord(UNKEYWORD) && !Closes(w)
    ensures ParseList(lib, None, [w] + ([flag] + rest)) == Abort
  {
    PathAborts(lib, Here(w), [flag] + rest);
  }
}
