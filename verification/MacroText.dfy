/** The macro table of the SEARCH command as text: tokenizing the right-hand
    column of `equiv_list` gives the tokens the parser is proved about. */
module MacroText {
  import opened Text
  import opened Lexer
  import opened CommandWriter
  import opened SearchSyntax

  // ----- tokens of short texts -----

  /** A word at the end of a text, and the blank in front of it. */
  lemma LastWord(t: string)
    requires GoodAtom(t)
    ensures OnLine([' '] + t) && Lexes([' '] + t, [t], 0)
  {
    hide Lexes, OnLine, GoodAtom;
    EmptyLine();
    LexPiece(Piece([' '], Atom(t)), [], [], 0);
    EmptyConcat(t);
    EmptyConcat([t]);
  }

  /** A word in front of a text that begins with a blank. */
  lemma FirstWord(t: string, rest: string, vs: seq<string>, n: nat)
    requires GoodAtom(t) && OnLine(rest) && Lexes(rest, vs, n) && rest != [] && rest[0] == ' '
    ensures OnLine(t + rest) && Lexes(t + rest, [t] + vs, 1 + n)
    ensures OnLine([' '] + (t + rest)) && Lexes([' '] + (t + rest), [t] + vs, 1 + n)
  {
    hide Lexes, OnLine, GoodAtom;
    LexesTrimmed(rest, vs, n);
    LexPiece(Piece([], Atom(t)), rest, vs, n);
    EmptyConcat(t + rest);
    LexPiece(Piece([' '], Atom(t)), rest, vs, n);
  }

  lemma TwoWords(a: string, b: string)
    requires GoodAtom(a) && GoodAtom(b)
    ensures Lexes(a + ([' '] + b), [a, b], 1)
  {
    hide *;
    LastWord(b);
    FirstWord(a, [' '] + b, [b], 0);
    assert [a] + [b] == [a, b];
  }

  lemma ThreeWords(a: string, b: string, c: string)
    requires GoodAtom(a) && GoodAtom(b) && GoodAtom(c)
    ensures Lexes(a + ([' '] + (b + ([' '] + c))), [a, b, c], 2)
  {
    hide *;
    LastWord(c);
    FirstWord(b, [' '] + c, [c], 0);
    FirstWord(a, [' '] + (b + ([' '] + c)), [b] + [c], 1);
    assert [a] + ([b] + [c]) == [a, b, c];
  }

  lemma Group(a: string, b: string)
    requires GoodAtom(a) && GoodAtom(b)
    ensures Lexes(['('] + (a + ([' '] + (b + [')']))), [['('], a, b, [')']], 3)
  {
    hide *;
    WordAndClose(b);
    var r1 := [' '] + (b + [')']);
    FirstWord(a, r1, [b, [')']], 1);
    AfterOpen(a + r1, [a] + [b, [')']], 2);
    assert [['(']] + ([a] + [b, [')']]) == [['('], a, b, [')']];
  }

  lemma WordAndClose(t: string)
    requires GoodAtom(t)
    ensures OnLine([' '] + (t + [')'])) && Lexes([' '] + (t + [')']), [t, [')']], 1)
  {
    hide Lexes, GoodAtom;
    EmptyLine();
    LexPiece(Piece([], Close), [], [], 0);
    EmptyConcat([')']);
    EmptyConcat([[')']]);
    LexPiece(Piece([' '], Atom(t)), [')'], [[')']], 0);
    assert [t] + [[')']] == [t, [')']];
  }

  lemma AfterOpen(rest: string, vs: seq<string>, n: nat)
    requires OnLine(rest) && Lexes(rest, vs, n) && rest != []
    ensures Lexes(['('] + rest, [['(']] + vs, 1 + n)
  {
    hide Lexes, OnLine;
    LexesTrimmed(rest, vs, n);
    LexPiece(Piece([], Open), rest, vs, n);
    EmptyConcat(['('] + rest);
  }

  // ----- roles -----

  lemma UpperKept(t: string)
    requires forall i :: 0 <= i < |t| ==> !('a' <= t[i] <= 'z')
    ensures Upper(t) == t
  {
  }

  lemma FlagIsOther(t: string)
    requires |t| > 0 && t[0] == BACKSLASH
    ensures Classify(t) == OtherWord
  {
    assert Upper(t)[0] == BACKSLASH;
  }

  lemma WordRoles()
    ensures Classify("NOT") == NotWord && Classify("KEYWORD") == CondWord(KEYWORD)
    ensures Classify("RECENT") == MacroWord(RECENT)
  {
    UpperKept("NOT");
    UpperKept("KEYWORD");
    UpperKept("RECENT");
  }

  lemma MoreRoles()
    ensures Classify("UNSEEN") == MacroWord(UNSEEN)
    ensures Classify("(") == OpenWord && Classify(")") == OtherWord
  {
    UpperKept("UNSEEN");
    UpperKept(")");
  }

  lemma GoodWords()
    ensures GoodAtom("NOT") && GoodAtom("KEYWORD") && GoodAtom("RECENT") && GoodAtom("UNSEEN")
  {
  }

  lemma GoodFlags(m: Macro)
    requires m != UNKEYWORD
    ensures GoodAtom(MacroFlag(m)) && MacroFlag(m)[0] == BACKSLASH
  {
  }

  // ----- the table -----

  lemma PositiveText(m: Macro)
    requires Positive(m)
    ensures EquivText(m) == "KEYWORD" + ([' '] + MacroFlag(m))
  {
    assert |EquivText(m)| == 8 + |MacroFlag(m)|;
    assert EquivText(m)[..8] == "KEYWORD" + [' '];
    assert EquivText(m)[8..] == MacroFlag(m);
    TakeDrop(EquivText(m), 8);
    ConcatAssoc("KEYWORD", [' '], MacroFlag(m));
  }

  lemma NegativeText(m: Macro)
    requires !Positive(m) && m != NEW && m != OLD && m != UNKEYWORD
    ensures EquivText(m) == "NOT" + ([' '] + ("KEYWORD" + ([' '] + MacroFlag(m))))
  {
    ConcatAssoc("NOT KEYWORD", [' '], MacroFlag(m));
    assert "NOT KEYWORD" == "NOT" + ([' '] + "KEYWORD");
    ConcatAssoc("NOT", [' '] + "KEYWORD", [' '] + MacroFlag(m));
    ConcatAssoc([' '], "KEYWORD", [' '] + MacroFlag(m));
    NegativeFlag(m);
  }

  lemma NegativeFlag(m: Macro)
    requires !Positive(m) && m != NEW && m != OLD && m != UNKEYWORD
    ensures EquivText(m) == "NOT KEYWORD" + [' '] + MacroFlag(m)
  {
    assert |EquivText(m)| == 12 + |MacroFlag(m)|;
    assert EquivText(m)[..12] == "NOT KEYWORD" + [' '];
    assert EquivText(m)[12..] == MacroFlag(m);
    TakeDrop(EquivText(m), 12);
  }

  lemma OtherTexts()
    ensures EquivText(NEW) == ['('] + ("RECENT" + ([' '] + ("UNSEEN" + [')'])))
    ensures EquivText(OLD) == "NOT" + ([' '] + "RECENT")
    ensures EquivText(UNKEYWORD) == "NOT" + ([' '] + "KEYWORD")
  {
  }

  /** For every macro, the tokens of its text, with their roles, are the expansion
      the parser substitutes. */
  lemma MacroTextIsExpansion(m: Macro)
    ensures Trimmed(EquivText(m)) && Lex(EquivText(m), [NUL]).Args?
    ensures Lexemes(Lex(EquivText(m), [NUL]).values) == Expansion(m)
  {
    hide EquivText, Lex, GoodAtom, Classify, MacroFlag, Trimmed;
    WordRoles();
    MoreRoles();
    GoodWords();
    OtherTexts();
    if m == NEW {
      Group("RECENT", "UNSEEN");
    } else if m == OLD {
      TwoWords("NOT", "RECENT");
    } else if m == UNKEYWORD {
      TwoWords("NOT", "KEYWORD");
    } else {
      GoodFlags(m);
      FlagIsOther(MacroFlag(m));
      if Positive(m) {
        PositiveText(m);
        TwoWords("KEYWORD", MacroFlag(m));
      } else {
        NegativeText(m);
        ThreeWords("NOT", "KEYWORD", MacroFlag(m));
      }
    }
  }
}
