# imap4d and the Sieve compiler, modelled in Dafny

GNU Mailutils contains an IMAP4rev1 server, `imap4d`, and a compiler and
interpreter for the mail filtering language Sieve.  This project models the parts
of both where most can go wrong and proves what holds of them for every input,
every run and every reachable state.

Code that works by changing things step by step is modelled by classes and
methods with loops, each proved against a specification function; what the
program promises is then proved about those functions.  Where a promise turns
out not to hold, the code is modelled as it is, an input shows that it fails, and
a lemma says exactly when it holds.

| part | modules |
|---|---|
| Strings and numbers | `Text`, `Numbers` |
| Reading commands | `Lexer`, `Reader`, `TokbufEdits`, `Tokbuf`, `Quoting`, `CommandWriter`, `LineEnds` |
| SEARCH | `SearchSyntax`, `SearchParser`, `SearchAborts`, `SearchEval`, `SearchMachine`, `MacroText` |
| The parse buffer | `Pieces` |
| FETCH | `FetchSyntax`, `FetchParser`, `FetchMachine`, `FetchTheorems`, `FetchText`, `FetchResponse`, `NameLists`, `FetchNames`, `FetchBrackets`, `FetchIo`, `HeaderFields` |
| From octets to meaning | `EndToEnd` |
| Strings sent | `Responses` |
| Sessions and TLS | `Session`, `SessionMachine`, `Signals` |
| The selected mailbox | `Mailbox`, `ClientView`, `FlagTable`, `CopyCommand` |
| Mailbox names | `Namespace` |
| Sieve | `SieveTree`, `SieveOptimizer`, `SieveStatic`, `SieveCode`, `SieveMachine` |

`dafny verify dfyconfig.toml` checks the whole project.

## What was found

- UNKEYWORD can never be parsed: its expansion lacks the argument of KEYWORD, and
  the parser aborts (`SearchAborts.AbortsExactlyOnUnkeyword`).
- SEARCH without criteria compares a null token (`SearchMachine.Search0`).
- A quoted string that ends in an escaped backslash is misread if anything
  follows it on the line (`Quoting.QuotedReadsBack`).  At the end of a line the
  search for its closing quote goes on behind the line, into old contents of the
  buffer or out of it (`LineEnds.LastQuotedOnTheWire`).
- Room for a literal is computed modulo the word size: a count of -1 is read
  without any (`Tokbuf.TokBuf.MakeRoom`, `CommandWriter.CountWraps`).
- An atom that looks like the announcement of a literal is taken for one when it
  comes last (`CommandWriter.CommandReadsBack`).
- An empty literal ends the session (`CommandWriter.EmptyLiteralEnds`); one that looks
  quoted, or holds a NUL, becomes another argument than the one sent
  (`CommandWriter.LiteralSpoilt`).
- An empty argument makes the FETCH parser see what follows it twice
  (`Pieces.EmptyArgumentRepeats`, `Pieces.StreamIsExact`).
- Header names are remembered by their address in the command: one that is followed
  by a closing parenthesis in the same quoted argument is later read together with it
  (`Pieces.RememberedPiece`).
- A header name with a dot or another delimiter in it is refused
  (`FetchText.DottedNameIsRefused`, `FetchTheorems.NamesParse`).
- Header names are printed without quotes: the response to a request for the field
  `X Y` is named like the one for the fields X and Y (`FetchNames.NamesCollide`,
  `FetchBrackets.ResponseIdentifiesSection`).
- Plain RFC822 is refused anywhere in a list but at its end
  (`FetchText.RequestCompiles`).
- `BODY[1.]` is accepted, and answered under the name of another section
  (`FetchBrackets.ResponseIdentifiesSection`).
- A block that a constant test selects loses all statements but the first
  (`SieveOptimizer.SecondStatementIsLost`); which scripts are changed can be seen from
  their text (`SieveStatic.StaticallyExact`).
- A failed COPY is not undone: rollback sets a user flag that expunging does not
  look at, marks the destination's messages as seen, and expunges messages that
  were deleted before (`CopyCommand.RollbackIsExact`).
- COPY goes on behind a message it could not copy, up to the end of the range
  (`CopyCommand.CopyGoesOn`).
- The response to UID STORE translates in the wrong direction
  (`Mailbox.StoreResponseUid`, `Mailbox.WrongUidIsSent`).
- Four commands leave the selected state without closing the mailbox when their
  argument count is wrong (`Session.LeakIsExact`, `Session.CloseLeaks`).
- Replacing the flags of a message with STORE makes it recent again
  (`Mailbox.StoreKeepsRecent`, `Mailbox.StoreMakesRecent`).
- STORE on a message delivered since the last look at the mailbox writes behind the
  table of flags (`ClientView.DeliveryOverflows`, `FlagTable.Selected.StoreAll`).
- Flags that change before an EXPUNGE rereads the table are never reported, nor are
  those that change before a silent STORE (`ClientView.StepInforms`).
- LIST of a name in the Other Users namespace without a wildcard looks in the user's
  own directory, and reports what it finds there as another user's
  (`Namespace.ListedAsUser`, `Namespace.ListedNamesMapBackExactly`).

## Where code and documentation disagree

The model follows the code in each case.

- The grammar in the comment before the SEARCH parser allows only simple keys
  after NOT and OR; the code accepts any key, groups included.
- `libmu_sieve/README` describes a machine with a stack and NOP cells; the code
  generator emits neither.  Lists of alternatives are compiled to branches that are
  chained through their operands, and every location change puts a LOCUS
  instruction into the code.
- Section 7.4.1 of RFC 3501 calls the response EXPUNGE; the server sends EXPUNGED.

## Model

| member | source | states |
|---|---|---|
| `SearchParser.AcceptsExactlyKeyLists` | imap4d/search.c:470-568 | A token list compiles to a tree, with nothing left over, if and only if it is the writing of a non-empty list of well-formed keys without UNKEYWORD whose tree that is |
| `SearchParser.KeyComplete` | imap4d/search.c:494-568 | Every well-formed key with acceptable arguments, followed by anything, is parsed to its tree and leaves exactly what follows |
| `SearchParser.ListComplete` | imap4d/search.c:470-491 | The same for every list of keys, closed by a parenthesis or by the end |
| `SearchParser.KeySound` | imap4d/search.c:494-568 | Whatever is accepted as a key is the writing of a well-formed key, and the tree is that key's |
| `SearchParser.ListSound` | imap4d/search.c:470-491 | Whatever is accepted as a list of keys is the writing of one |
| `SearchParser.ArgsComplete` | imap4d/search.c:659-740 | Arguments of a condition are taken in number and kind as its type string says |
| `SearchParser.ExpansionRank` | imap4d/search.c:182-199 | The expansion of a macro contains only macros of lower rank: the measure under which the parser, with its swapping of token buffers, terminates |
| `SearchParser.UnkeywordExpansionFails` | imap4d/search.c:196-196 | The expansion of UNKEYWORD is one argument short, so it can never be parsed |
| `SearchAborts.AbortsExactlyOnUnkeyword` | imap4d/search.c:571-606 | Any token list, well formed or not, ends in the abort of `parse_equiv_key` if and only if well-formed keys lead to an UNKEYWORD in the place of a key: alone, behind NOT or OR, or in a group that may never be closed |
| `SearchAborts.PathAborts` | imap4d/search.c:571-606 | From such a place the parser aborts, whatever follows |
| `SearchAborts.NoUnkeywordNoAbort` | imap4d/search.c:571-606 | A statement without the word UNKEYWORD never aborts, however ill formed |
| `SearchAborts.UnkeywordFlagAborts` | imap4d/search.c:196-196 | UNKEYWORD followed by a flag, the form section 6.4.4 of RFC 3501 gives it, aborts |
| `SearchAborts.KeysAbort` | imap4d/search.c:571-606 | Of the well-formed statements exactly those abort that use UNKEYWORD as a key |
| `SearchParser.MacrosAreInlineSubstitution` | imap4d/search.c:571-606 | Parsing with token buffers swapped gives the same tree as parsing the text with every macro replaced, at any depth, by its parenthesized expansion |
| `SearchParser.MacroParses` | imap4d/search.c:182-199 | Every macro other than UNKEYWORD parses to the tree of what it abbreviates |
| `SearchEval.ParsedTreesAreTyped` | imap4d/search.c:608-740 | Every tree the parser returns has at each call the number and kinds of arguments of its condition, at most two of them |
| `SearchEval.TypedEvaluation` | imap4d/search.c:744-802 | Evaluating such a tree never depends on reading a member of the value union that was not written |
| `SearchEval.SearchRunNeverAborts` | imap4d/search.c:805-818 | The result of a parsed tree is always a number: the abort in `search_run` is never reached |
| `SearchEval.CompileCorrect` | imap4d/search.c:744-802 | The tree of a key evaluates to a non-zero number exactly on the messages for which the key's boolean meaning holds |
| `SearchEval.SearchCorrect` | imap4d/search.c:275-370 | For every nested list of keys: the criteria parse, and the tree matches a message exactly if all keys hold of it (section 6.4.4 of RFC 3501) |
| `SearchMachine.ParseBuf.GetToken` | imap4d/search.c:375-384 | Gives the current argument and moves on, or none at the end |
| `SearchMachine.ParseBuf.ParseSearchKeyList` | imap4d/search.c:470-491 | The loop over keys yields the tree, the position and the error of the parser function |
| `SearchMachine.ParseBuf.ParseSearchKey` | imap4d/search.c:494-568 | The same for one key |
| `SearchMachine.ParseBuf.ParseNotKey` | imap4d/search.c:525-541 | The same for NOT |
| `SearchMachine.ParseBuf.ParseOrKey` | imap4d/search.c:542-565 | The same for OR and its two keys |
| `SearchMachine.ParseBuf.ParseEquivKey` | imap4d/search.c:571-606 | With the token buffer swapped for the macro's and swapped back, the outer position is kept and the tree is the macro's |
| `SearchMachine.ParseBuf.ParseCondition` | imap4d/search.c:609-664 | A condition is looked up and its arguments parsed as the parser function does |
| `SearchMachine.ParseBuf.ParseArguments` | imap4d/search.c:665-740 | The loop over the type string yields the arguments of the parser function |
| `SearchMachine.ParseBuf.ParseMessageSet` | imap4d/search.c:618-657 | A message set is taken where no condition has the name |
| `SearchMachine.DoSearch` | imap4d/search.c:347-370 | The loop over the mailbox reports exactly the matches of the reference function |
| `SearchMachine.MatchesExactly` | imap4d/search.c:347-370 | A message number is reported if and only if that message can be read and all keys hold of it |
| `SearchMachine.MatchesAscend` | imap4d/search.c:347-370 | Numbers are reported in ascending order, none twice |
| `SearchMachine.UidMatches` | imap4d/search.c:347-370 | UID SEARCH reports the UIDs of exactly the messages SEARCH reports, in the same order |
| `SearchMachine.Search0` | imap4d/search.c:275-342 | The whole command: a null token is compared if and only if criteria, or the name behind CHARSET, are missing; otherwise CHARSET is skipped or refused, the criteria are parsed, and the reply is the matching messages or the error of the parser |
| `MacroText.MacroTextIsExpansion` | imap4d/search.c:182-199 | For every macro, tokenizing its text gives the tokens and roles the parser is proved about |
| `Lexer.UnescapeEscape` | imap4d/io.c:400-426 | Unquoting undoes backslash escaping, for every string |
| `Lexer.LexTok` | imap4d/io.c:529-583 | A token is NUL free, ends where the rest of the line begins, and always uses up some of the line; one NUL at most is inserted, and none behind the last |
| `Lexer.LineIsDetermined` | imap4d/io.c:586-590 | What a line is taken for depends on bytes behind a known part of the buffer if and only if some search for a closing quote runs out of that part |
| `TokbufEdits.Unquote` | imap4d/io.c:400-426 | In place, a string is unescaped and nothing outside it changes; the loop ends if and only if each backslash it stops at precedes a backslash or a quote |
| `TokbufEdits.Decrlf` | imap4d/io.c:482-499 | In place, every CR before LF goes, in one pass of moves, and nothing outside the range changes |
| `Tokbuf.TokBuf.Expand` | imap4d/io.c:501-511 | Room is made for more characters and what was there stays; where the sum of level and size wraps, the buffer shrinks below its level |
| `Tokbuf.TokBuf.InsertNul` | imap4d/io.c:516-526 | A NUL is put in by moving the rest up by one, over the first byte behind the text |
| `Tokbuf.TokBuf.FindClosing` | imap4d/io.c:547-558 | The loop finds the closing quote of the search function over the whole buffer, or runs out of it |
| `Tokbuf.TokBuf.GetQuoted` | imap4d/io.c:559-568 | A quoted string, which may be closed behind the text, becomes the argument the tokenizer function gives, or spins as it does; earlier arguments stand |
| `Tokbuf.TokBuf.GetAtom` | imap4d/io.c:570-583 | The same for an atom |
| `Tokbuf.TokBuf.GetDelim` | imap4d/io.c:570-572 | The same for a parenthesis, behind which a NUL has to be squeezed in |
| `Tokbuf.TokBuf.GetTok` | imap4d/io.c:529-583 | One call of `gettok` appends exactly the next token and disturbs no argument before it; it spins or leaves the buffer exactly where the tokenizer function says |
| `Tokbuf.TokBuf.Tokenize` | imap4d/io.c:586-590 | A line becomes exactly the tokens it makes with the bytes behind it, or fails as the tokenizer function says; the level rises by the NULs inserted |
| `Tokbuf.TokBuf.GetLine` | imap4d/io.c:623-671 | A line of any length, read in pieces, is stored without its line end and trailing blanks; behind it lie a NUL for each octet dropped and then what the buffer held before |
| `Tokbuf.TokBuf.MakeRoom` | imap4d/io.c:501-511 | There is room for a literal and its NUL if and only if level, count and one do not exceed the largest size_t |
| `Tokbuf.TokBuf.ReadLiteral` | imap4d/io.c:702-714 | Given that room, exactly the octets announced, or all the connection still yields, are read, however they arrive |
| `Tokbuf.TokBuf.TakeLiteral` | imap4d/io.c:701-720 | A literal of any count: refused for want of memory, at the end of the connection, read without room, or stored, each exactly when the reading function says |
| `Tokbuf.TokBuf.StoreText` | imap4d/io.c:471-499 | A literal becomes the last argument with CRLF folded, unquoted if it begins and ends with a quote; all other arguments stand |
| `Tokbuf.TokBuf.ReadRound` | imap4d/io.c:674-724 | One round of the loop either finishes the command or brings it exactly one line and one literal further |
| `Tokbuf.TokBuf.ReadLine` | imap4d/io.c:674-724 | When the command has been read, the offsets into the buffer denote exactly its arguments and the input stands right behind it; in every other case it ends as the reading function says, for the bytes that lay behind each line |
| `Tokbuf.TokBuf.FromString` | imap4d/io.c:727-737 | A string is tokenized in a buffer of its own |
| `Quoting.QuotedReadsBack` | imap4d/io.c:547-568 | An escaped string in quotes is read back as the text it stands for if and only if it does not end in a backslash, or nothing follows it on the line and the byte behind the line is a NUL |
| `Quoting.StaleTextIsTaken` | imap4d/io.c:547-568 | A string that is not closed on its line takes in what an earlier command left in the buffer |
| `LineEnds.LastQuotedReadsBack` | imap4d/io.c:547-568 | At the end of a line of any pieces: the string is read back if and only if it does not end in a backslash, or a NUL has come to lie behind it after as many insertions as there are atoms and parentheses |
| `LineEnds.LastQuotedOnTheWire` | imap4d/io.c:674-724 | The same for a whole command: two insertions use up CR and LF, after which old contents of the buffer decide, and where there are none the search leaves the buffer |
| `LineEnds.PasswordStrays` | imap4d/io.c:547-568 | A command that leaves the buffer: LOGIN with a password that ends in a backslash, on a fresh connection |
| `Quoting.FindCloseScan` | imap4d/io.c:547-568 | The search for the closing quote passes every escaped quote, and passes the closing one if a backslash stands before it |
| `CommandWriter.LexLine` | imap4d/io.c:586-590 | A line written from atoms, parentheses, quoted strings and a literal's announcement is tokenized to exactly these |
| `CommandWriter.HeaderAnnounces` | imap4d/io.c:685-700 | The announcement of a literal is recognized, with its count, in both forms |
| `CommandWriter.CommandReadsBack` | imap4d/io.c:674-724 | Any mix of atoms, parentheses, quoted strings and literals, empty ones included, is read back as its arguments, with the input left right behind it and whatever the buffer held before, if and only if the last argument does not itself look like the announcement of a literal, each literal fits, and none is empty, looks quoted or holds a NUL |
| `CommandWriter.LiteralSpoilt` | imap4d/io.c:701-720 | A literal that looks quoted or holds a NUL never becomes the argument it stands for |
| `CommandWriter.EmptyLiteralEnds` | imap4d/io.c:701-720 | A command with an empty literal anywhere behind arguments on its first line is never completed: the session ends as at the end of the input |
| `CommandWriter.ReadInvertsWrite` | imap4d/io.c:674-724 | The same from the beginning of a command |
| `CommandWriter.PipelineReadsBack` | imap4d/io.c:674-724 | Commands sent without waiting are read one by one, none bleeding into the next |
| `CommandWriter.AnnouncementIsNotReadBack` | imap4d/io.c:685-700 | A command that is not read back: one whose last atom looks like an announcement |
| `CommandWriter.CountWraps` | imap4d/io.c:695-702 | A command whose literal is read without any room: one that announces -1 octets |
| `Pieces.CutIsFaithful` | imap4d/parsebuf.c:87-143 | The pieces of an argument are single delimiters and runs free of them, two runs never side by side, and together they are the argument |
| `Pieces.CutIsUnique` | imap4d/parsebuf.c:87-143 | There is no other way to cut it like that |
| `Pieces.ParseBuf.Next` | imap4d/parsebuf.c:87-143 | The next piece stands at the token, NUL terminated; the pieces left are the pieces there were without it; at the end there is none, and "Too few arguments" if one was required |
| `Pieces.ParseBuf.Peek` | imap4d/parsebuf.c:50-84 | What the next call of next would return, without any other change |
| `Pieces.ParseBuf.Restored` | imap4d/parsebuf.c:114-140 | When all pieces have been taken the buffer is as it was at the start |
| `Pieces.ParseBuf.constructor` | imap4d/parsebuf.c:146-171 | Set up at an argument, the pieces to come are those of the arguments from there on, empty ones included |
| `Pieces.StreamIsExact` | imap4d/parsebuf.c:106-120 | The pieces handed out are those of the arguments, and depend on nothing else, if and only if no argument is empty |
| `Pieces.EmptyArgumentRepeats` | imap4d/parsebuf.c:106-120 | Behind an empty argument any word is handed out twice, the first time with the blank in front of it |
| `Pieces.RememberedPiece` | imap4d/fetch.c:1351-1364 | A piece kept by its address reads, once the buffer is restored, as itself if and only if it is the last of its argument |
| `FetchMachine.FetchReader.Advance` | imap4d/parsebuf.c:87-143 | The current token becomes the first piece not yet taken |
| `FetchMachine.FetchReader.HeaderList` | imap4d/fetch.c:1351-1364 | The header names between parentheses, or the error of the parser function |
| `FetchMachine.FetchReader.SectionText` | imap4d/fetch.c:1374-1422 | Fills the closure as the parser function says for HEADER, HEADER.FIELDS, TEXT and MIME, or leaves everything as it was |
| `FetchMachine.FetchReader.SectionPart` | imap4d/fetch.c:1440-1478 | Collects the part numbers, looking one token ahead, as the parser function does |
| `FetchMachine.FetchReader.Section` | imap4d/fetch.c:1485-1515 | Parses a bracketed section to the closure of the parser function |
| `FetchMachine.FetchReader.Substring` | imap4d/fetch.c:1518-1534 | Parses a partial range, each error in its place |
| `FetchMachine.FetchReader.BodyArgs` | imap4d/fetch.c:1538-1549 | Appends the closure of a section and its range |
| `FetchMachine.FetchReader.FetchBody` | imap4d/fetch.c:1569-1586 | Appends what BODY and the tokens behind it stand for |
| `FetchMachine.FetchReader.FetchRfc822` | imap4d/fetch.c:1288-1337 | Appends what RFC822 and its suffix stand for |
| `FetchMachine.FetchReader.FetchAtt` | imap4d/fetch.c:1589-1613 | Appends the closures of one data item and leaves the stream where the parser function does |
| `FetchMachine.FetchReader.FetchAttList` | imap4d/fetch.c:1617-1621 | Appends the closures of all data items in order |
| `FetchTheorems.SectionParses` | imap4d/fetch.c:1485-1515 | Every section, with header names of any characters, written piece by piece, is parsed to its closure and leaves what follows if and only if the parser takes each of its names; otherwise it is refused or loses names |
| `FetchTheorems.NamesParse` | imap4d/fetch.c:1351-1364 | A list of header names is taken as it was written if and only if each name is free of the parser's delimiters; otherwise it is refused or names are missing |
| `FetchTheorems.ItemParses` | imap4d/fetch.c:1589-1613 | The same for every data item, with PEEK and a partial range |
| `FetchTheorems.ListParses` | imap4d/fetch.c:1617-1621 | A list of data items is parsed to the closures it asks for if and only if plain RFC822 stands nowhere but at its end and every header name is taken |
| `FetchText.RequestLexes` | imap4d/fetch.c:1663-1694 | However a request is written, as atoms or quoted strings, the two tokenizers turn its text into exactly its pieces |
| `FetchText.RequestCompiles` | imap4d/fetch.c:1625-1659 | A list is compiled to exactly the closures it asks for, in order, if and only if plain RFC822 stands nowhere but at its end and every header name is taken |
| `FetchText.Rfc822InFront` | imap4d/fetch.c:1288-1337 | A request that is refused: RFC822 with FLAGS behind it |
| `FetchText.SingleCompiles` | imap4d/fetch.c:1625-1659 | A single data item is compiled without parentheses if and only if every header name in it is taken |
| `FetchText.DottedNameIsRefused` | imap4d/fetch.c:1351-1364 | A request that is not compiled as it was meant: a header name with a dot in it |
| `FetchText.MacrosAreLists` | imap4d/fetch.c:1232-1250 | ALL, FULL and FAST mean exactly the lists they abbreviate |
| `FetchResponse.SendSectionPart` | imap4d/fetch.c:692-712 | Sends the part numbers with dots between, the suffix and the bracket |
| `FetchResponse.SendName` | imap4d/fetch.c:1119-1127 | Sends the name of the section, with its header names |
| `FetchNames.NameReadsBack` | imap4d/fetch.c:1085-1127 | For every section, with header names of any characters but NUL that the parser takes, the name printed in the response, read by the tokenizers and the parser, gives back its handler, parts, tag, negation and header names if and only if no header name holds a blank, a parenthesis or a line break and none that begins with a quote finds another to close it |
| `FetchNames.FieldsNameReads` | imap4d/fetch.c:1085-1096 | The same for sections that ask for header fields, where it can fail |
| `FetchNames.NamesAreUnique` | imap4d/fetch.c:1085-1127 | Different sections for which this holds are never given the same name |
| `FetchNames.NamesCollide` | imap4d/fetch.c:1085-1096 | Two sections with one name: the header `X Y`, and the headers X and Y |
| `FetchNames.BlankInNameIsAccepted` | imap4d/fetch.c:1351-1364 | The parser accepts the first of them |
| `NameLists.LegibleReads` | imap4d/fetch.c:1085-1096 | Names for which the condition holds, printed as a list, are tokenized to exactly themselves, each, and the end of the section |
| `NameLists.ReadAgain` | imap4d/fetch.c:1085-1096 | A list of names that is read back as itself meets the condition |
| `NameLists.NamesTakeRoom` | imap4d/fetch.c:1351-1364 | The names read from a list are together never longer than its text without the blanks in front: nothing is gained by a second reading |
| `NameLists.QuoteSearch` | imap4d/io.c:547-568 | The search for a closing quote finds one in a text that does not end in one exactly if a quote stands there that is not escaped |
| `FetchResponse.ParsedShapes` | imap4d/fetch.c:1485-1515 | Every section the parser accepts is a well-formed one, or ends in a dot with nothing behind it |
| `FetchBrackets.ResponseIdentifiesSection` | imap4d/fetch.c:1485-1515 | For every section accepted, whatever its header names, the name in the response is read back as that section if and only if the request has no dot in front of its first closing bracket and its header names are such that a list of them is read back |
| `FetchBrackets.ParsedNames` | imap4d/fetch.c:1351-1364 | Every header name the parser lets in is free of its delimiters and of NUL |
| `FetchBrackets.DotDangles` | imap4d/fetch.c:1485-1515 | Such a dot is there exactly if the closure has neither tag nor part handler |
| `FetchBrackets.CutGivesPieces` | imap4d/parsebuf.c:87-143 | The pieces of any arguments without NUL have their delimiters standing alone |
| `FetchResponse.DanglingIsAccepted` | imap4d/fetch.c:1500-1506 | A section that ends in a dot is accepted as text of the part |
| `FetchIo.EncodeChunk` | libmailutils/filter/crlfflt.c:50-115 | Encodes as much as fits into the output; with room for two octets it always makes progress |
| `FetchIo.EncodeAll` | libmailutils/filter/crlfflt.c:50-115 | However input and output are cut into buffers, the encoded text is the same |
| `FetchIo.CrlfSize` | imap4d/fetch.c:1010-1020 | Octets plus lines is the length of the encoded text |
| `FetchIo.SendData` | imap4d/fetch.c:715-802 | The data sent is exactly the range asked for, cut off at the end of the encoded text, and the octet count announced is its length; it is refused only where the size would overflow |
| `FetchIo.ReadWindow` | imap4d/fetch.c:771-777 | The reading loop collects exactly the window, however many octets each read brings |
| `FetchIo.PartialFetchesTile` | imap4d/fetch.c:715-802 | Consecutive ranges of any sizes that reach the end give the whole text, nothing lost and nothing twice |
| `FetchIo.WindowsJoin` | imap4d/fetch.c:715-802 | Two ranges that touch are one range |
| `FetchIo.OverflowNeedsHugeText` | imap4d/fetch.c:749-755 | The test for overflow is met only within two octets of the largest size |
| `FetchIo.ReplyReads` | imap4d/fetch.c:715-802 | A client reads the origin and the data back, and stops right behind them, whatever follows |
| `HeaderFields.Collect` | imap4d/fetch.c:1145-1172 | The fields selected are collected under the name asked for, and size and lines together are the size of the encoded text |
| `HeaderFields.CountLines` | imap4d/fetch.c:1099-1105 | Counts the line breaks of a string |
| `HeaderFields.FieldsShareTheHeader` | imap4d/fetch.c:1149-1169 | HEADER.FIELDS and HEADER.FIELDS.NOT with the same names share out the header between them: every field goes to exactly one of the two |
| `Responses.SendQString` | imap4d/io.c:216-232 | Sends NIL, a quoted string, or a literal with line breaks blanked |
| `Responses.SendAString` | imap4d/io.c:235-253 | The same, keeping the empty string |
| `Responses.BlankBreaks` | imap4d/io.c:224-226 | The loop over both searches ends with every line break, and nothing else, turned into a blank |
| `Responses.QStringArrives` | imap4d/io.c:216-232 | A client recovers the string and stops right behind it; it is the string sent if and only if that has no line break and is not empty |
| `Responses.AStringArrives` | imap4d/io.c:235-253 | The same, where only line breaks are lost |
| `Responses.LiteralCountIsExact` | imap4d/io.c:256-259 | The octet count of a literal is still right after LF has been turned into CRLF |
| `SieveTree.OptStmtsReady` | libmu_sieve/sieve-gram.y:549-667 | Optimized scripts contain no constant tests and no empty lists of alternatives |
| `SieveOptimizer.FoldedTest` | libmu_sieve/sieve-gram.y:628-774 | Folding constants keeps the answer of every test |
| `SieveOptimizer.OptimizedAll` | libmu_sieve/sieve-gram.y:549-568 | If a run performs no action in a part that is thrown away, the optimized script performs the same actions and ends the same way |
| `SieveOptimizer.OptimizationIsExact` | libmu_sieve/sieve-gram.y:856-894 | For tests that do not change and scripts without stop: a run keeps its actions if and only if none is performed in a part that is thrown away |
| `SieveStatic.KeptScriptsAreKept` | libmu_sieve/sieve-gram.y:856-894 | If nothing acts behind the first statement of a block chosen by a constant, optimization keeps the actions and the ending of every run, for all tests that depend on the actions before them only |
| `SieveStatic.StaticallyExact` | libmu_sieve/sieve-gram.y:856-894 | For scripts without stop in which no test stands twice, this can be seen from the text: optimization keeps the actions under every choice of answers if and only if nothing acts behind the first statement of a block chosen by a constant |
| `SieveStatic.LossesCancel` | libmu_sieve/sieve-gram.y:856-894 | Why stop is left out: a script that loses statements and performs the same actions, because what is lost ends in a stop and what follows makes up for it |
| `SieveOptimizer.SecondStatementIsLost` | libmu_sieve/sieve-gram.y:856-894 | A script that is changed: of a block behind a constant only the first statement is kept |
| `SieveCode.TestRuns` | libmu_sieve/sieve-gram.y:670-781 | The code of a test evaluates exactly the tests that left-to-right short-circuit evaluation does, in order, and leaves the answer in the register |
| `SieveCode.ListRuns` | libmu_sieve/sieve-gram.y:670-697 | The same for a list of alternatives with its branches to the end |
| `SieveCode.StmtsRun` | libmu_sieve/sieve-gram.y:943-950 | The code of statements performs their tests and actions and goes on behind it, or ends the run as they do |
| `SieveCode.CodeIsScript` | libmu_sieve/runtime.c:224-250 | Running the code of an optimized script is running that script: it never leaves the program, and always halts |
| `SieveCode.CompiledScriptRuns` | libmu_sieve/sieve-gram.y:1493-1534 | The same for every script, once it is optimized |
| `SieveMachine.Machine.Code` | libmu_sieve/prog.c:27-51 | Appends an instruction, a pending location first |
| `SieveMachine.Machine.CodeChain` | libmu_sieve/sieve-gram.y:677-688 | The first loop links the branches through their own operands |
| `SieveMachine.Machine.CodeXOf` | libmu_sieve/sieve-gram.y:670-697 | Following the chain back leaves in every operand the distance to the end |
| `SieveMachine.Machine.CodeCond` | libmu_sieve/sieve-gram.y:571-596 | The operands of both branches are patched to jump exactly over the code in between |
| `SieveMachine.Machine.CodeTree` | libmu_sieve/sieve-gram.y:943-950 | Appends the code of all statements |
| `SieveMachine.Machine.Compile` | libmu_sieve/sieve-gram.y:1518-1533 | Leaves the code of the optimized script between two empty cells |
| `SieveMachine.Machine.Step` | libmu_sieve/runtime.c:34-148 | Each instruction does what the machine function says |
| `SieveMachine.Machine.SieveRun` | libmu_sieve/runtime.c:224-250 | The loop halts with exactly the tests and actions of the optimized script, and keeps the message if there was no action |
| `SieveMachine.CompilerPreservesMeaning` | libmu_sieve/sieve-gram.y:1493-1534 | Compiling and running a script performs exactly the actions it says, in order, if nothing acts behind the first statement of a block chosen by a constant |
| `SieveMachine.CompilerIsExact` | libmu_sieve/sieve-gram.y:1493-1534 | For scripts without stop in which no test stands twice, compiled code performs the actions written under every choice of answers if and only if that is so |
| `Session.Resolve` | imap4d/starttls.c:73-96 | No server comes up with its mode unspecified, and a mode that was given is kept |
| `Session.StartIsSafe` | imap4d/imap4d.c:764-800 | Every way a session can start, from every configuration of TLS, is safe |
| `Session.StepIsSafe` | imap4d/util.c:20-57 | Every command line, right or wrong, keeps the session safe and gets exactly one completion response, which is tagged unless the line was empty |
| `Session.RunIsSafe` | imap4d/imap4d.c:810-819 | In every run: the selected state has an open mailbox, states beyond the first have a user set up, and capabilities agree with the modes they stand for |
| `Session.FailureKeepsSafe` | imap4d/io.c:308-321 | A failing command never raises the state: it stays, or falls from selected to authenticated |
| `Session.WrongStateChangesNothing` | imap4d/util.c:53-54 | A command in a state that does not allow it is refused and changes nothing |
| `Session.AccessIsAuthenticated` | imap4d/commands.c:19-51 | No handler that works on mailboxes is reached without a user, and none that works on the selected mailbox without one |
| `Session.AuthenticationIsEarned` | imap4d/login.c:32-69 | In no run is the first state left unless a LOGIN or AUTHENTICATE of that run was vouched for |
| `Session.StaysAuthenticated` | imap4d/commands.c:19-51 | In no run is it entered again |
| `Session.NoCleartextLogin` | imap4d/starttls.c:34-70 | In every run of a session that waits for TLS, the first state is left only once the connection is encrypted |
| `Session.RequiredIsGuarded` | imap4d/authenticate.c:93-107 | With TLS required this holds from the start if and only if the session was not authenticated before it began |
| `Session.StartTlsIsOffered` | imap4d/starttls.c:34-96 | In every run of every server, STARTTLS is offered exactly where it is accepted |
| `Session.LoginPolicyIsOffered` | imap4d/login.c:38-39 | LOGIN is refused for policy exactly where LOGINDISABLED or XTLSREQUIRED is offered |
| `Session.LeakIsExact` | imap4d/close.c:20-60 | A mailbox stays open outside the selected state if and only if a SELECT, EXAMINE, CLOSE or UNSELECT with the wrong number of arguments left that state, until the next well-formed SELECT or EXAMINE |
| `Session.CloseLeaks` | imap4d/close.c:20-60 | A command that leaves a mailbox open from any selected session: CLOSE with an argument |
| `SessionMachine.Server.constructor` | imap4d/imap4d.c:764-800 | A server starts exactly if its TLS configuration passes, and is then safe |
| `SessionMachine.Server.Completion` | imap4d/io.c:293-324 | One tagged response; a failure never raises the state, and nothing but the state moves |
| `SessionMachine.Server.Login` | imap4d/login.c:32-69 | The state rises, and a user is set up, exactly if policy allows it, the arguments are right and the password was accepted; nothing else moves |
| `SessionMachine.Server.Authenticate` | imap4d/authenticate.c:93-145 | The same for AUTHENTICATE: exactly if TLS is not still required and a mechanism names a user that can be set up |
| `SessionMachine.Server.Select0` | imap4d/select.c:35-118 | The session is in the selected state afterwards exactly if the mailbox was opened, and authenticated otherwise; the mailbox selected before stays open only after the wrong number of arguments |
| `SessionMachine.Server.Close0` | imap4d/close.c:20-60 | The selected state is left whatever happens; the mailbox is closed exactly if the arguments are right |
| `SessionMachine.Server.StartTlsCommand` | imap4d/starttls.c:34-58 | After an accepted STARTTLS the session is encrypted or over; after a refused one nothing has moved |
| `SessionMachine.Server.TurnEncryptionOn` | imap4d/starttls.c:61-70 | Nothing is left to be offered, or refused, for want of TLS |
| `SessionMachine.Server.Logout` | imap4d/logout.c:30-38 | LOGOUT ends the session, with its mailbox closed, exactly if it has no arguments |
| `SessionMachine.Server.DoCommand` | imap4d/util.c:20-57 | Dispatch moves the session as the step function says and keeps it safe |
| `SessionMachine.Server.MainLoop` | imap4d/imap4d.c:810-819 | Over any input the loop stays safe, is where the run function says, and has sent one completion response to each line |
| `Signals.SectionsAreNotInterrupted` | imap4d/signal.c:24-47 | No jump leads out of the middle of a critical section |
| `Signals.SignalsAreHonoured` | imap4d/signal.c:24-47 | In every run the first signal, and only that, ends the session, exactly once, as soon as the section it came in is left; closing is not cut short again |
| `Signals.Guard.EnterCritical` | imap4d/signal.c:24-29 | Entering a section |
| `Signals.Guard.LeaveCritical` | imap4d/signal.c:32-37 | Leaving one jumps exactly if a signal was put off in it |
| `Signals.Guard.ChildSignal` | imap4d/signal.c:40-47 | The handler jumps only outside of sections |
| `Mailbox.StoreIsMeant` | imap4d/store.c:94-114 | For every message and every list of flags, FLAGS, +FLAGS and -FLAGS do to the flags that can be stored what section 6.4.6 of RFC 3501 says |
| `Mailbox.StoreKeepsRecent` | imap4d/store.c:110-113 | STORE leaves \Recent as it was if and only if flags are added or removed, or the message was recent: replacing them makes any message recent |
| `Mailbox.StoreMakesRecent` | imap4d/store.c:110-113 | A message that becomes recent again: one that has been seen and read, whatever flags replace its own |
| `Mailbox.StoreIsSeen` | libmailutils/imapio/flags.c:64-88 | What is shown of a message after STORE follows from what was shown before |
| `Mailbox.StoreTwice` | imap4d/store.c:94-114 | Storing twice is storing once, to the last bit |
| `Mailbox.StoreResponseUid` | imap4d/store.c:121-128 | The response to UID STORE names the UID of the message if and only if that UID is its message number |
| `Mailbox.WrongUidIsSent` | imap4d/store.c:121-128 | Two mailboxes that show it: with the UIDs 5, and 2 and 7, the wrong UID or none is found |
| `Mailbox.Expunge` | libmailutils/base/amd.c:1324-1418 | Exactly the deleted messages go, and each is reported under its number at that moment |
| `Mailbox.ExpungeIsFollowed` | imap4d/sync.c:157-169 | A client that removes, for each report in turn, the message of that number ends up with exactly the messages left, in order |
| `FlagTable.Selected.Realloc` | imap4d/sync.c:29-39 | The count never exceeds the capacity, and what was there stays |
| `FlagTable.Selected.Reread` | imap4d/sync.c:49-66 | The table becomes the flags of the mailbox |
| `FlagTable.Selected.Report` | imap4d/sync.c:81-109 | Exactly the changes to messages known before are reported, and the table becomes the flags of the mailbox |
| `FlagTable.Selected.Notify` | imap4d/sync.c:69-114 | The same, or a fresh table, followed by EXISTS and RECENT |
| `FlagTable.Selected.Sync` | imap4d/sync.c:192-228 | Sends exactly the notices, and leaves exactly the table, of the three cases; there is then an entry for every message |
| `FlagTable.Selected.SyncFlags` | imap4d/sync.c:125-136 | One entry follows the mailbox, and the write is in bounds if and only if there is no table or the number is within its capacity |
| `FlagTable.Selected.StoreOne` | imap4d/store.c:94-136 | One message gets the flags meant and no other changes, its table entry follows it and no other, and the client is told or left to work it out; the write is in bounds if and only if the number is within the table's capacity, also when the mailbox has grown |
| `FlagTable.Selected.StoreAll` | imap4d/store.c:139-163 | Every write stays in the table if and only if no number named exceeds its capacity; then exactly the messages named, in any order and however often, are stored in once, with their table entries and what the client knows of them |
| `FlagTable.Selected.ExpungeCommand` | imap4d/expunge.c:32-47 | Reports exactly the messages that go, at their numbers of the moment, throws the table away and reads it anew, sending no flags |
| `ClientView.ChangesAreExact` | imap4d/sync.c:81-109 | A flags notice is sent for exactly the messages known before whose flags differ from the table |
| `ClientView.NoticesInform` | imap4d/sync.c:69-114 | After the notices nothing the client believes of any message is false |
| `ClientView.ReportsTaken` | imap4d/sync.c:157-169 | Following the reports of EXPUNGE, a client is left with what it knew of exactly the messages that stay |
| `ClientView.ExpungeInforms` | imap4d/expunge.c:32-47 | After EXPUNGE what the client believes is true if and only if, before it, the table agreed with the flags of every message that stays and whose flags the client knew |
| `ClientView.SyncInforms` | imap4d/sync.c:192-228 | After a sync it is true unless the table was read anew over a change not yet reported |
| `ClientView.StoreInforms` | imap4d/store.c:94-136 | After STORE it is true unless the form is silent and the flags worked out by the client differ from those made of flags changed meanwhile; the mailbox may have grown since the last look |
| `ClientView.LookingStaysInside` | imap4d/sync.c:125-136 | In every run in which the server looks at the mailbox between any change from outside and a STORE, every write stays in the table |
| `ClientView.DeliveryOverflows` | libmailutils/msgset/parse.c:134-155 | A run that does not: a message delivered after the last look, and a STORE that names it |
| `ClientView.StepInforms` | imap4d/sync.c:192-228 | For every step of every kind that stays in the table: what the client believes stays true of the table if and only if that step loses nothing, which is decided by the state before it |
| `ClientView.RunInforms` | imap4d/sync.c:192-228 | After any run of syncs, stores, expunges and changes from outside that stays in the table and loses nothing, the next look at the mailbox leaves the client with beliefs that are all true of it |
| `ClientView.ChangeIsLost` | imap4d/expunge.c:32-47 | A change that is lost: a message read elsewhere just before an EXPUNGE |
| `ClientView.ChangeIsHidden` | imap4d/store.c:131-135 | Another: the same just before a silent STORE of some other flag |
| `CopyCommand.TryCopy` | imap4d/copy.c:105-135 | For any set of failing messages: exactly those that can be appended are, up to the end of the first range that ends in a failure, and none if sizes or quota fail; success is reported exactly if nothing failed |
| `CopyCommand.CopyRange` | libmailutils/msgset/foreachmsg.c:62-76 | Within a range every message that can be appended is, whatever happened to those before it; the range fails exactly if its last message does |
| `CopyCommand.SafeCopy` | imap4d/copy.c:138-200 | On success exactly the messages selected are appended, in order; on failure the destination is what marking and flushing leave of it and the messages copied |
| `CopyCommand.Flush` | libmailutils/mailbox/mailbox.c:407-435 | Flushing marks every message as seen and removes those with the deleted attribute |
| `CopyCommand.RollbackIsExact` | imap4d/copy.c:152-200 | A failed COPY leaves the destination as it was if and only if no message in it was deleted, all were seen, and all that had been copied were deleted ones |
| `CopyCommand.FailedCopyStays` | imap4d/copy.c:152-200 | The same for whatever any set of failures leaves to be copied |
| `CopyCommand.CopyLeavesTheFirst` | imap4d/copy.c:172-185 | A COPY that is not undone: the first message stays when the second fails |
| `CopyCommand.CopyGoesOn` | libmailutils/msgset/foreachmsg.c:62-76 | When the second of three messages fails, the third is still copied |
| `Namespace.InitIsReady` | imap4d/namespace.c:68-148 | Every configuration that is accepted gives a table with distinct prefixes, longest first, and an empty one, which is personal |
| `Namespace.LongestPrefixWins` | imap4d/namespace.c:202-238 | Translation always finds a prefix, and every other prefix that matches is strictly shorter |
| `Namespace.FindPrefix` | imap4d/namespace.c:202-238 | The loop finds the first prefix that matches |
| `Namespace.TranslateDelim` | imap4d/namespace.c:151-156 | Every delimiter, and nothing else, is replaced |
| `Namespace.ListFun` | imap4d/list.c:70-126 | Reports the reference, a delimiter where one is needed, and the name with its separators translated; or skips the entry |
| `Namespace.ListedNamesMapBack` | imap4d/list.c:104-126 | A reported name that keeps the prefix of its reference translates to the reference's directory, slashes, and the file that was listed, and belongs to the same user |
| `Namespace.ListedNamesMapBackExactly` | imap4d/namespace.c:158-196 | In all three namespaces this holds if and only if a reference to the Other Users namespace names a user |
| `Namespace.MatchPfx` | imap4d/list.c:141-156 | The loop decides whether the reference is the prefix, give or take a delimiter at the end |
| `Namespace.WildcardsMapBack` | imap4d/list.c:187-193 | With a wildcard the server refuses what that loop finds, and every name it reports translates back |
| `Namespace.ListedAsUser` | imap4d/list.c:104-126 | Without one, a mailbox of the user's own is reported as a name that stands for the directory of another user |
| `EndToEnd.SearchFromTheWire` | imap4d/search.c:264-370 | From octets to meaning: however the tokens of a list of keys are written, as atoms, quoted strings or literals, the command read back parses and matches exactly the messages of which all keys hold |
| `EndToEnd.FetchFromTheWire` | imap4d/fetch.c:1716-1774 | From octets to closures: however a FETCH list is written, as atoms, quoted strings or literals, it is read back, and compiled to exactly what it asks for if and only if plain RFC822 stands nowhere but at its end and every header name is taken |

## Left out

- Tokbuf.TokBuf.FromString: the string is taken to have no trailing blank and to fit into memory, which is true of the constant strings the program passes.
- Tokbuf.TokBuf.TakeLiteral: where there is no room for a literal the model stops; what the octets written outside the buffer do is not described.
- Tokbuf.TokBuf.GetTokAt: likewise where the search for a closing quote leaves the buffer.
- Pieces.ParseBuf.constructor: the memory behind the token buffer is taken to hold a NUL somewhere, if an empty argument leads there.
- FetchTheorems.SectionParses: the empty header name is not covered; the parser then sees what follows it twice (Pieces.StreamIsExact).
- FetchMachine.FetchReader.HeaderList: header names are copied when they are read; the source keeps their addresses, which is the same for every name that is an argument of its own, as in all written requests, and more for one with a closing parenthesis right behind it in a quoted argument (Pieces.RememberedPiece).
- FetchBrackets.ResponseIdentifiesSection: likewise.
- HeaderFields.Collect: names of header fields are taken to have no line break, as the header parser guarantees.
- FetchIo.SendData: sizes and line counts of messages come from the message library and are taken to be right; read and seek errors do not occur.
- Namespace.ListedNamesMapBack: the reference INBOX itself, names that fall under another prefix than their reference, and the expansion of variables in directory names are not covered, nor are listed names that are empty.
- SieveOptimizer.OptimizationIsExact: for scripts with stop, or tests that depend on earlier actions, only the sufficient direction is given, because two different losses can then cancel each other (SieveStatic.LossesCancel).
- FlagTable.Selected.StoreAll: what a write outside the table does is not described.
- ClientView.RunInforms: messages are told apart by position; that a mailbox cut by another program may put other messages in the places of those known is seen only through their flags.
- Session.RunIsSafe: mailbox locking, timeouts, IDLE and transcripts are not part of the session state.
- CopyCommand.RollbackIsExact: other programs writing to the destination at the same time are not modelled.
- The Sieve tree is rewritten on values, not through the doubly linked nodes of the source; freeing of nodes is not modelled.
- `parse_macro` of FETCH is modelled on the stream of pieces; the swap of token buffers appears as a flag that says whether a piece of the old buffer is still pending.
- The go-ahead sent before a literal, and the growth policy of the argument table.
- The individual SEARCH conditions, date and number parsing and message sets: functions given from outside.
- The contents of FETCH items other than sections (envelope, body structure, internal date), and the implicit seen flag.
- Handlers of Sieve tests and actions, their arguments, disassembly and aborting handlers.
- Authentication mechanisms, pre-authentication and TLS negotiation: only their outcome.
- CREATE, DELETE, RENAME, SUBSCRIBE, STATUS, APPEND, ID and IDLE beyond their place in the command table.
- Quota accounting, signals other than by number, and everything in Mailutils outside `imap4d` and the Sieve compiler.
