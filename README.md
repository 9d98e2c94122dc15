# notedown-compiler, modelled in Dafny

This project models the core of notedown-compiler, a C++ compiler for the Notedown markup language, and proves properties of that model. The core covers the following parts.

- **Lexer** (`Lexer.Parser`, in `lexer.dfy`). The tokenizer turns the input into text, number, space, newline, symbol and end-of-input tokens. Runs of the same symbol or space are folded into one token with a count. There are escapes, timesnaps for backtracking, `readUntil`, link parsing, `parsePlainText` and the `gettok(n)` partial consume.
- **Handler dispatch** (`Handlers`, `Blocks`, `Inline`). These model the `canHandle` tests of every block and inline handler.
  - The search looks for the next handler *after* a given index (`findHandlerAfter`, `findInlineHandlerAfter`).
  - `parseLine` tries a handler and, when it fails, reverts and goes on to the next one. The default paragraph handler ends that loop.
  - `parseText` and `_parseLine` read inline text.
  - The block handlers are modelled: paragraph, heading, horizontal line, blockquote, ordered and unordered list, code, info block, id definition, footnote and collapse. So is the indentation-tracked continuation they share.
  - The inline handlers are modelled: the emphasis template, task, emoji, inline code, link and modifier, and command.
- **Element tree** (`Ast.Tree`, in `tree.dfy`). The tree is an arena of elements with parent indices. It has `addElement`, `prependElement`, `setContent`, `addCommand`, `containingElement`, `getDocument`, `isEmpty` and HTML escaping.
- **Command language** (`Command`).
  - The command parser handles snippets, quoting, and the `#` `.` `:` `+` `$` `&` `>` `%` branches.
  - `merge` and `integrate` combine commands, with their precedence rules.
  - `resolve` splices in referenced command blocks and uses a visited set.
  - `constructHeader` and `execute` are modelled too.
- **Ids** (`Ids`). `makeId`, `ltrim`, `rtrim`, `trim` and `isId` are modelled.
- **Processing phases** (`Phases`).
  - The per-kind hooks cover registering containers, definitions, footnotes and headings, resolving links, tasks and commands, and consuming children.
  - `process` walks the tree in post-order.
- **Compiler** (`Compiler.NotedownCompiler`).
  - The handler and alias registry is modelled, with the default handlers.
  - So are symbols, the emoji table reader, `handleRequest`, modifier and generator registration, and `prepareAST`.
  - `prepareAST` runs the passes Register, Resolve and Consume, then ExecutePrep, ExecuteMain and ExecutePost, each over every document before the next.
- **Table of contents and list numbering** (`TableOfContents`). These model `tocLevel`, `inserttoc` and `usenum` from `src/main.cpp`.
- **Highlighter** (`Highlighter`). This models the group registry of `SyntaxGroup`, `splitStr` and the stitching of `highlight_callback`.

The code that changes things in place is modelled as Dafny classes with `modifies` clauses. This covers the lexer's stream state, the element tree, the compiler's registries, and the syntax group. Most methods are proved against a pure function of their inputs (a decoder, a search, a reference definition). The methods that run handlers (`Blocks.Dispatch`, `Blocks.ParseLine`, `Blocks.ParseDocument`, `Inline.ParseText`) are specified by what they guarantee about the tree, the parser state and the handler they keep, since the handlers they run are themselves methods. Everything else is datatypes, functions and lemmas.

Where this model and a description of the design disagree, the model follows the C++ code in `src/`. The ASTProcess enum has no Identify step that `prepareAST` would run, although `AST.cpp` switches on one; `Compiler.PrepareOrder` shows that the step never runs. The copies at the top level of the repository are an older snapshot that is not compiled, and they are not modelled.

## Model

| member | source | states |
|---|---|---|
| Util.LeadingDigits | src/lexer.cpp:81-84 | the digit-only prefix of a string, ending at the first non-digit, as `stoi`/`stoul` read it |
| Util.Repeat | src/lexer.cpp:150-151 | `std::string(n, c)`: exactly `n` copies of `c` |
| Util.SplitProperties | src/highlighter.cpp:43-63 | splitting yields no empty token, no token holds a delimiter, and the tokens concatenated are the input with its delimiters removed |
| Util.SplitLoop | src/highlighter.cpp:43-63 | the accumulate-and-flush splitting loop computes `Split`, with the properties above |
| Ids.TrimShape | src/notedown-compiler.cpp:10-28 | the trimmed text is a slice of the input framed only by whitespace, and starts and ends on a non-space |
| Ids.LTrimInPlace | src/notedown-compiler.cpp:11-15 | `ltrim` removes exactly the leading whitespace run |
| Ids.RTrimInPlace | src/notedown-compiler.cpp:18-22 | `rtrim` removes exactly the trailing whitespace run |
| Ids.TrimInPlace | src/notedown-compiler.cpp:25-28 | `trim` is `ltrim` then `rtrim`, giving `Trim(s)` |
| Ids.MakeId | src/notedown-compiler.cpp:30-56 | the character loop of `makeId` computes `MakeIdOf(str)`, the step-by-step id of the trimmed input |
| Ids.MakeIdWellFormed | src/notedown-compiler.cpp:30-56 | every id is empty or starts with a lower-case letter, uses only `a-z 0-9 _ -`, and never holds `--` or `__` |
| Ids.MakeIdLowersLetters | src/notedown-compiler.cpp:35-37 | an upper-case letter comes out as its lower-case twin |
| Ids.MakeIdIdempotent | src/notedown-compiler.cpp:30-56 | `makeId(makeId(s)) == makeId(s)` |
| Ids.IsIdAsWrittenRejectsMadeIds | src/notedown-compiler.cpp:58-62 | `isId` as written is false on every id `makeId` produces |
| Ids.IsIdAsWrittenCounterexample | src/notedown-compiler.cpp:58-62 | the heading text `"A"` gives the id `"a"`, which `isId` as written rejects |
| Ids.IsIdAcceptsMadeIds | src/notedown-compiler.cpp:58-62 | the corrected check accepts every non-empty id `makeId` produces |
| Ids.IsIdOfWellFormed | src/notedown-compiler.cpp:58-62 | the corrected check holds of a non-empty well-formed id |
| Command.SnippetsQuoteFree | src/AST.cpp:9-28 | `splitSnippets` never yields an empty piece and no piece holds `"` |
| Command.SplitSnippets | src/AST.cpp:9-28 | the quote-aware splitting loop computes `Snippets(str, c)`, whose pieces are non-empty and quote-free |
| Command.SplitAt | src/AST.cpp:30-45 | `splitAt` yields `Split(str, {c})`: non-empty pieces without `c`, which concatenate to the input minus `c` |
| Command.ApartAt | src/AST.cpp:47-52 | the text before the first `c` holds no `c`, and `before + c + after` is the input; without a `c` the rest is empty |
| Command.ParseArgsLoop | src/AST.cpp:104-114 | the argument loop splits on `,` with quotes respected and strips a leading quote and the last character, as `ParseArgs` states |
| Command.ApplyOne | src/AST.cpp:70-154 | one turn of the constructor's token loop, as `ApplySnippet` states |
| Command.ParseCommand | src/AST.cpp:68-155 | the constructor's token loop computes `Parsed(command)`, the tokens applied left to right |
| Command.IdKept | src/AST.cpp:71-77 | tokens other than a valid `#name` never change the id |
| Command.LastIdWins | src/AST.cpp:71-77 | the last valid `#name` token decides the id |
| Command.LastTitleWins | src/AST.cpp:86-93 | the last `:title` token decides the title |
| Command.LastGeneratorWins | src/AST.cpp:100-118 | the last `$name:args` token with a valid name decides the generator |
| Command.CssStep | src/AST.cpp:138-147 | a `>prop:value` token longer than four characters with a valid name and a non-empty value adds its entry only if the property is new |
| Command.AttributeStep | src/AST.cpp:94-99 | a `+key=value` token with a valid key adds its entry only if the key is new |
| Command.GeneratorStep | src/AST.cpp:100-118 | a `$` token with a valid name replaces the generator; any other leaves it |
| Command.ClassStep | src/AST.cpp:78-85 | a `.a.b` token adds exactly its pieces that pass `strisiden` |
| Command.MapsKept | src/AST.cpp:94-99 | `+key` and `>prop` tokens never overwrite an entry already present |
| Command.FirstAttributeWins | src/AST.cpp:94-99 | for a new key, the first valid `+key=value` decides its value |
| Command.AttributeAbsent | src/AST.cpp:94-99 | without a token for a new key, the key stays absent |
| Command.FirstCssWins | src/AST.cpp:138-147 | for a new property, the first valid `>prop:value` decides its value |
| Command.CssAbsent | src/AST.cpp:138-147 | without a token for a new property, it stays absent |
| Command.ClassesCollected | src/AST.cpp:78-85 | a class is present iff it was there before or is a valid piece of some `.` token |
| Command.RefsAreIdentifiers | src/AST.cpp:148-152 | the references already present stay as a prefix, and each appended `%name` reference is a non-empty valid identifier |
| Command.QuoteBranchesUnreachable | src/AST.cpp:86-147 | no piece of the constructor's splitter can take the quote-stripping branches after `:`, in a `>` value, or in a `$`/`&` argument |
| Command.InsertAll | src/AST.cpp:241-249 | inserting `other` entry by entry gives `m + other` when overwriting and `other + m` when not |
| Command.AppendAll | src/AST.cpp:246-251 | pushing `ys` one by one gives `xs + ys` |
| Command.MergeCommands | src/AST.cpp:237-252 | the field-by-field `merge` computes `Merge(a, b)` |
| Command.IntegrateCommands | src/AST.cpp:254-271 | the field-by-field `integrate` computes `Integrate(a, b)` |
| Command.MergePrecedence | src/AST.cpp:237-252 | the other command's id, title and generator are taken even when empty, its map entries overwrite, and the classes are unioned |
| Command.MergeTwice | src/AST.cpp:237-252 | merging the same command twice equals merging once, except that the two lists are appended again |
| Command.IntegrateKeeps | src/AST.cpp:254-271 | integrate fills an empty id, title or generator, never changes an existing one or an existing map entry, unions the classes and appends the lists |
| Command.IntegrateTwice | src/AST.cpp:254-271 | integrating the same command twice equals integrating once, except that the two lists are appended again |
| Command.IntegrateIsSwappedMerge | src/AST.cpp:237-271 | once the receiver's id, title and generator are set, integrating is merging with the roles swapped, up to the order of the appended lists and the kept `refName` |
| Command.ResolveFromProperties | src/AST.cpp:293-303 | every integrated name has a definition and was not yet seen, no name is integrated twice, and the result is the receiver with those definitions integrated in order |
| Command.ResolveBounded | src/AST.cpp:293-303 | resolution integrates at most as many definitions as exist, each defined one at most once, never the command's own `refName`, and the result is those definitions integrated in order |
| Command.Resolve | src/AST.cpp:293-303 | the loop over the growing `refCommands` computes `Resolved(c, defs)`, terminates, and never shrinks the reference list |
| Command.ConstructHeader | src/AST.cpp:305-328 | the header is empty iff the command has no id, class, title, style or attribute, and starts with ` id="…"` when there is an id |
| Command.AttributePairs | src/AST.cpp:326-327 | the attribute part is empty exactly when there are no attributes |
| Command.ModCallsShape | src/AST.cpp:337-344 | each modifier call uses a registered `"&" + name` key, and every named modifier with a registered key is called |
| Command.Execute | src/AST.cpp:330-345 | the calls are the generator's then the modifiers' in order; every call's key is registered, every call after the first is a `&` modifier, and there is at most one call more than there are modifiers |
| Ast.AllEmptyIff | src/AST.hpp:163-168 | a list element is empty iff every one of its elements is empty |
| Ast.ContainingElement | src/AST.cpp:376-378 | the containing element, when one exists, is a node of the tree and not an inline element |
| Ast.ContainingIsAncestor | src/AST.cpp:435-437 | an inline element's containing element is found by walking up its parents |
| Ast.GetDocument | src/AST.cpp:372-374 | the document found by walking up the parents, when there is one, is a node of kind `Document` |
| Ast.Tree.constructor | src/AST.hpp:111-114 | a fresh arena of elements is empty and well formed |
| Ast.Tree.NewNode | src/AST.hpp:352-358 | a new element gets the next index, no command, no parent and no elements; the inner element it owns, if any, gets it as parent; nothing else changes |
| Ast.Tree.AddElement | src/AST.hpp:170-182 | a null child changes nothing; otherwise the child is appended as the last element and gets the list as parent |
| Ast.Tree.PrependElement | src/AST.hpp:194-206 | a null child changes nothing; otherwise the child becomes the first element, the old elements follow it, and the child gets the list as parent |
| Ast.Tree.AddElements | src/AST.hpp:184-192 | the non-null children are appended in order; no other element's list and no kind changes |
| Ast.Tree.SetContent | src/AST.cpp:462-468 | only the container's held content changes |
| Ast.Tree.AddCommand | src/AST.cpp:419-425 | the element's command becomes its merge with the given command; nothing else changes |
| Ast.Tree.SetParent | src/AST.cpp:1085-1089 | the element's parent becomes the given element; nothing else changes |
| Ast.AdoptedFrame | src/AST.hpp:170-206 | adopting a child keeps every kind and every other element's list |
| Ast.AdoptedWf | src/AST.hpp:170-206 | adopting children whose indices are in the arena keeps the arena well formed |
| Ast.EscapeHtml | src/AST.cpp:537-556 | the character loop escapes `&`, `<` and `>` as entities, and the output holds no `<` or `>` |
| Ast.EscapedHasNoBrackets | src/AST.cpp:537-556 | escaped text never holds `<` or `>` |
| Ast.EscapedBothWays | src/AST.cpp:537-556 | escaping from the front and from the back give the same text |
| Ast.EscapeRoundTrip | src/AST.cpp:537-556 | decoding the three entities recovers the original text exactly, so escaping loses nothing |
| Handlers.InlineNeedsSymbol | src/handlers.cpp:754-1028 | no inline handler claims a position whose last token is not a symbol |
| Handlers.FirstFrom | src/lexer.cpp:182-191 | the first index at or after `from` that passes, every index before it fails; or none passes |
| Handlers.AfterIndex | src/lexer.cpp:182-185 | a null handler or an id outside the list restarts the search at the front; otherwise it resumes right after the id |
| Handlers.OpenMask | src/lexer.cpp:166-172 | one test per registered block handler, in registration order, each exactly that handler's `canHandle` |
| Handlers.InlineMask | src/lexer.cpp:193-199 | one test per registered inline handler, in registration order, each exactly that handler's `canHandle` |
| Handlers.FindAfter | src/lexer.cpp:166-191 | the block handler found is the first that can handle the position at or after the resume point; none found means none there can |
| Handlers.FindInlineAfter | src/lexer.cpp:193-219 | the inline handler found is the first that can handle the position at or after the resume point; none found means none there can |
| Handlers.RetryMovesOn | src/lexer.cpp:182-191 | a retry after a handler with a valid id only finds a later handler |
| Handlers.InvType | src/handlers.cpp:528-535 | `(`, `{` and `<` map to their closing bracket and everything else to `\0` |
| Handlers.TickedBoxRecordsBracket | src/handlers.cpp:1045-1053 | as written, a matched task box records a space or `]`, never the `x` it matched |
| Handlers.TaskBoxRecordsTick | src/handlers.cpp:1030-1056 | in the corrected reading a matched box records a space, `x` or `X`, and the mark is not a space exactly when the box held `x` or `X` |
| Handlers.TickedBoxDiffers | src/handlers.cpp:1045-1053 | every ticked box that the corrected reading records as `x`/`X` is recorded as `]` as written |
| Phases.PostOrderInArena | src/AST.hpp:152-156 | every element a walk visits is an element of the arena |
| Phases.PostOrderSelfLast | src/AST.hpp:152-156 | a walk visits every child of a list element before the element itself, which comes last |
| Phases.ChildVisited | src/AST.hpp:152-156 | every element of a list is visited by the walk over that list |
| Phases.SameShapeTrans | src/AST.cpp:380-402 | keeping the tree's shape is transitive across steps |
| Phases.ShapeKeepsOrder | src/AST.cpp:380-402 | a step that keeps the tree's shape keeps the order of every later walk |
| Phases.RegisterContainer | src/AST.cpp:451-460 | a command container without a generator, inside some element, hands its command to that element by `integrate` and is emptied; otherwise nothing changes; the shape is kept |
| Phases.RegisterDefinition | src/AST.cpp:873-882 | without a document nothing changes; otherwise the document maps type-plus-id to the definition, a `{` definition takes its id as `refName`, and no other element changes |
| Phases.Enroll | src/AST.cpp:879 | entering an element in the document's `iddef` sets that one key and changes nothing else |
| Phases.RegisterFootnote | src/AST.cpp:1203-1208 | the document, when there is one, maps `^` plus the footnote id to the block; nothing else changes |
| Phases.IdentifyHeading | src/AST.cpp:927-932 | the document, when there is one, maps `#` plus the heading id to the heading; nothing else changes |
| Phases.TargetHit | src/AST.cpp:667-680 | a definition looked up for a link, image or footnote is an `IdDefinition` element |
| Phases.TargetMissKeepsUrl | src/AST.cpp:667-680 | only a url starting with `%` is looked up, and it hits exactly when the `(`-key built by `makeId` names a definition |
| Phases.FindTarget | src/AST.cpp:667-680 | the lookup the modifier performs is `TargetHit` |
| Phases.ResolveModifier | src/AST.cpp:667-680 | on a hit the url is the definition's and its command is integrated; the command is then resolved; nothing else changes |
| Phases.ResolveCommand | src/AST.cpp:362-364 | the element's command is replaced by its resolution against the definitions the compiler shares between its documents; nothing else changes |
| Phases.TaskItem | src/AST.cpp:814-840 | when a task opens an item, the task is the first element of its inline text, the item is a `ListElement` and its parent is an unordered list |
| Phases.ResolveTask | src/AST.cpp:814-840 | the task is valid exactly when `TaskItem` finds the list item it opens, and then only that item gains the class `nd-task-list-item`; nothing else changes |
| Phases.ConsumedKeeps | src/AST.hpp:140-147 | consuming children never changes entries, an id or a title the list already had, and only adds classes |
| Phases.ConsumedNothing | src/AST.hpp:140-147 | when no child can be consumed the command is unchanged |
| Phases.ConsumedGathersClasses | src/AST.hpp:140-147 | every consumable child's classes end up in the list's command |
| Phases.ConsumeChildren | src/AST.hpp:140-147 | only the list's command changes, to the consumed command |
| Phases.HeadingIdDerived | src/AST.cpp:919-925 | a heading keeps an id it has; otherwise it takes its content's id or the id `makeId` derives from its text; attributes are only added |
| Phases.ConsumeHeading | src/AST.cpp:919-925 | only the heading's command changes, to `HeadingConsumed` |
| Phases.Hook | src/AST.cpp:380-402 | an execute step leaves the tree unchanged and makes exactly the element's generator and modifier calls; other steps make no calls; the shape is kept |
| Phases.Process | src/AST.hpp:152-156 | the walk visits the elements in post-order, changes nothing in the execute steps, makes the calls along that order, and keeps the shape |
| Phases.ProcessChildren | src/AST.hpp:152-156 | the walk over a list of children visits them in order, each in post-order |
| Phases.CallsAlongAppend | src/AST.cpp:330-345 | the calls of two walks in a row are the calls of the first followed by those of the second |
| Lexer.TextRun | src/lexer.cpp:71-75 | a text token runs over the longest stretch of plain-text characters and stops at the first other character |
| Lexer.CountRun | src/lexer.cpp:86-91 | a symbol or blank run covers the longest stretch of that same character |
| Lexer.DigitRun | src/lexer.cpp:76-79 | a number covers the longest stretch of digits |
| Lexer.ScanAt | src/lexer.cpp:44-110 | one scan always consumes at least one character and never reads past the input; runs have a count of at least one and a one-character text |
| Lexer.Next | src/lexer.cpp:44-110 | `gettok` always moves forward while input remains, and at the end reports end of file and stays there |
| Lexer.Consume | src/lexer.cpp:112-122 | `gettok(amount)` never moves backwards |
| Lexer.RunIsMaximal | src/lexer.cpp:86-91 | a symbol or space token counts exactly the run of equal characters at its start, which the next character does not continue |
| Lexer.ScanIsLiteral | src/lexer.cpp:44-110 | outside escapes and line ends, a token spells out exactly the characters it consumed |
| Lexer.TextTokenIsPlain | src/lexer.cpp:71-75 | after its first character a text token holds no symbol, digit, blank, line end or backslash |
| Lexer.EscapeMeaning | src/lexer.cpp:51-70 | a backslash before a symbol, `n`, `.` or `\` yields that character (a line feed for `n`) as text, and before anything else stays a backslash |
| Lexer.ReadStopsOnCondition | src/lexer.cpp:136-164 | a successful read stops on a token that is no line end or end of file and that meets the stop condition |
| Lexer.ReadNeverSucceeds | src/lexer.cpp:136-164 | a read whose condition never holds runs to the line end and fails |
| Lexer.TargetHasNoBlank | src/lexer.cpp:225-228 | a link keyword read up to a blank or the delimiter holds no blank |
| Lexer.SpaceEndsLink | src/lexer.cpp:225-228 | the keyword condition holds exactly on a blank or on the delimiter symbol |
| Lexer.PeekPredicts | src/lexer.cpp:16-42 | `peektok` on the loaded character predicts the kind of the next token, an escape peeking as text |
| Lexer.ReadHalts | src/lexer.cpp:158-163 | at a line end the read fails and consumes it, at end of file it fails, and on the condition it succeeds without consuming |
| Lexer.ReadGoesOn | src/lexer.cpp:141-156 | otherwise the read appends the pending backslash and the token's literal text, then consumes the token |
| Lexer.Parser.constructor | src/lexer.hpp:17-37 | a parser starts at the front of its input with nothing loaded |
| Lexer.Parser.GetTok | src/lexer.cpp:44-110 | the parser's new state is `Next` of its old state |
| Lexer.Parser.Get | src/lexer.cpp:46 | `input->get()` yields the character at the position, or end of input there, moves one character on and sets the end-of-input flag once past the end |
| Lexer.Parser.Peek | src/lexer.cpp:54 | `input->peek()` yields the character at the position without moving, setting the end-of-input flag at the end |
| Lexer.Parser.LoadEscape | src/lexer.cpp:51-70 | after a backslash the look-ahead character becomes the one the escape stands for, one character further on |
| Lexer.Parser.ReadNumber | src/lexer.cpp:76-85 | a number token is its digit run plus an optional `.`, its value is that of the digits, and reading stops after them |
| Lexer.Parser.GetTokAmount | src/lexer.cpp:112-122 | the new state is `Consume` of the old one; a longer run only shrinks by the amount |
| Lexer.Parser.Dedent | src/handlers.hpp:34-39 | only the count of the current blank run shrinks by the indent |
| Lexer.Parser.CreateTimesnap | src/lexer.cpp:427-437 | the snapshot is the parser's whole state |
| Lexer.Parser.Revert | src/lexer.cpp:439-445 | reverting restores the snapshot exactly |
| Lexer.Parser.ReadUntil | src/lexer.cpp:136-164 | the text, the success flag and the new state are those of `ReadFrom` from the old state |
| Lexer.Parser.ParseLink | src/lexer.cpp:221-244 | keyword, command, success and new state are those of `LinkFrom`: a keyword up to a blank or the delimiter, then a command up to an unquoted delimiter |
| Lexer.Parser.ParsePlainText | src/lexer.cpp:413-425 | the text is the current token followed by `PlainFrom` of the rest, and the state is where the plain text ends |
| Lexer.PlainFrom | src/lexer.cpp:417-421 | plain text ends at a state that does not continue it |
| Lexer.PlainStep | src/lexer.cpp:417-421 | text and numbers are copied, a blank run becomes one space, and anything else ends the text |
| Lexer.PlainStops | src/lexer.cpp:417-421 | plain text ends on a symbol, a line end, end of file, or a blank run of two or more before a line end |
| Lexer.PlainBlanksBecomeSpaces | src/lexer.cpp:417-421 | plain text never holds a tab |
| Inline.LineStartStops | src/lexer.cpp:386-411 | `_parseLine` yields plain text that runs to a state which does not continue it, or yields nothing on a symbol, blank, line end or end of file, consuming nothing on a blank |
| Inline.ParseInline | src/lexer.cpp:386-411 | the new element, when there is one, is a fresh `PlainText` of exactly the text `LineStart` reads; otherwise the tree is unchanged |
| Inline.ParseText | src/lexer.cpp:321-384 | the result is null or a fresh `InlineText`; a null text means the line ended; a finished text that ended the line is non-empty and stops on a line end or end of file; one that did not stops on a symbol that is `symReturn`, or any unhandled symbol when those are not printed; earlier elements keep their kind and children |
| Inline.ForcedBreak | src/lexer.cpp:328-338 | two blanks before a line end are consumed; with line breaks allowed an empty text returns as null, otherwise a `Linebreak` is appended; without them nothing is added |
| Inline.Unknown | src/lexer.cpp:351-376 | without styling an unhandled symbol run is printed as that many copies of its character; with styling the retry loop runs, and stopping leaves the parser where it was |
| Inline.Literal | src/lexer.cpp:361-362 | a symbol run becomes a `PlainText` of that many copies of the character, and the run is consumed |
| Inline.FindInlineHandlerAfter | src/lexer.cpp:213-219 | the handler found is `FindInlineAfter` on the current state |
| Inline.SearchStep | src/lexer.cpp:354-370 | each search after the last tried handler keeps every handler tried able to handle the position, and covers every index up to the new one |
| Inline.InlineAt | src/lexer.cpp:351-370 | the retry loop only tries handlers that can handle the position, and gives up only after covering every registered handler |
| Inline.Retry | src/lexer.cpp:354-370 | one round of the retry loop moves the resume point strictly forward on an error and restores the parser |
| Inline.Attempt | src/lexer.cpp:365-367 | a failed handler leaves the parser as it was, through the saved snapshot |
| Inline.RoundAsWritten | src/lexer.cpp:354-370 | as written, a round that started in error ends in error or finds a handler |
| Inline.RoundCorrected | src/lexer.cpp:354-370 | a round of the corrected retry loop ends the loop exactly when no handler is left, so the token is literal text, or when the handler tried succeeds; the parser state stays valid |
| Inline.RetryAsWrittenDrifts | src/lexer.cpp:354-370 | as written, after an error with no handler left the symbol is printed and consumed but the error flag stays set, so the loop restarts on the next token |
| Inline.RetryAsWrittenHangsAtEnd | src/lexer.cpp:354-370 | as written, at end of file that round returns exactly the state it started from, so the loop never ends |
| Inline.RetryCorrectedProgresses | src/lexer.cpp:354-370 | with the error reset, every round that is still in error keeps the state and resumes after a strictly later handler |
| Inline.Template | src/handlers.hpp:291-307 | the template handler never fails; it yields a `TextModification` with its marker around inline text, or, at the line end, the text with the marker put back in front |
| Inline.TaskHandler | src/handlers.cpp:1030-1056 | the task handler fails exactly when the box does not match; otherwise it yields one `Task` with the recorded mark and leaves the parser after the box |
| Inline.ReadBox | src/handlers.cpp:1030-1053 | reading a box succeeds exactly when it matches, records the corrected mark and leaves the parser after the box |
| Inline.Smiley | src/handlers.cpp:938-958 | with no marker left open it yields nothing and consumes nothing; any element it yields is an `Emoji` |
| Inline.EmojiOf | src/handlers.cpp:950-953 | the emoji's shortcode is the literal text of the content between the markers |
| Inline.InlineCode | src/handlers.cpp:761-776 | any element it yields is a `TextModification` with the backtick marker |
| Inline.ModifierHandler | src/handlers.cpp:797-918 | the modifier handler fails exactly when it yields nothing; otherwise it yields a `Modifier` of the kind its selector names around fresh inline text |
| Inline.ModTail | src/handlers.cpp:817-916 | the element after the bracketed text is a `Modifier` of the selector's kind around that text, or an error |
| Inline.HeadingTail | src/handlers.cpp:859-881 | a heading link without an explicit target points to the id `makeId` derives from the link text |
| Inline.LinkTarget | src/handlers.cpp:824-894 | the target is read by `parseLink`; on failure nothing is yielded; on success a `Modifier` with its keyword as url and its command appended |
| Inline.CommandBody | src/handlers.cpp:978-998 | the command text, success and new state are those of `CommandAt` |
| Inline.StyledTail | src/handlers.cpp:895-911 | a `{…}` tail reads a quoted-aware command; on success a `Modifier` with that command appended |
| Inline.CommandHandler | src/handlers.cpp:978-998 | an inline command becomes an empty `CommandContainer` holding the parsed command, or an error when the `}` is missing |
| Blocks.HandlerOkGrown | src/lexer.hpp:17-37 | a handler's references into the tree stay valid when the tree only grows |
| Blocks.FreshCanHandle | src/handlers.hpp:18-28 | a freshly created handler, having no content yet, can handle a line exactly when its kind opens there |
| Blocks.PastBlanks | src/handlers.cpp:54-59 | skipping blanks ends on a token that is not a blank, and changes nothing when there is none |
| Blocks.InfoHead | src/handlers.cpp:460-515 | a matched info header ends on a lone `>` followed by a blank, and it is a symbol-typed box exactly when the type is not text |
| Blocks.IdHead | src/handlers.cpp:554-623 | a matched definition header records the opening bracket the line starts with |
| Blocks.IdEndsAtClosingBracket | src/handlers.cpp:554-623 | a matched definition name ends on a lone closing bracket that matches the opening one, followed by `:` |
| Blocks.FootnoteEndsAtColon | src/handlers.cpp:651-678 | a footnote header matches exactly when its name read succeeds, which ends on a lone `:` followed by a blank |
| Blocks.FenceClosesExactly | src/handlers.cpp:370-372 | a code line closes the block only on exactly the opening number of backticks at the end of the line |
| Blocks.SkipBlanks | src/handlers.cpp:54-59 | the loop that eats blanks reaches `PastBlanks` |
| Blocks.FindHandlerAfter | src/lexer.cpp:182-191 | the handler found is `FindAfter` on the current state |
| Blocks.Gather | src/handlers.cpp:433-438 | a new list element holds exactly the non-null children, in order |
| Blocks.ParseLine | src/lexer.cpp:253-293 | a line is handed back for a redo exactly when an open handler meets end of file or can no longer handle the line, and then that handler is closed and nothing is consumed; at end of file with no open handler nothing is produced; otherwise the line has the outcome `Dispatched` describes |
| Blocks.Dispatch | src/lexer.cpp:270-287 | the loop starts with `FirstTry`: the open handler, else a new one of the first registered class that takes the line, else the `H_default` paragraph; the handler that succeeds is that one or a new one created at its snapshot further on in the search; the handler kept open is the one that succeeded, and none is kept exactly when it reported itself finished; or every handler failed and the input is at its end; the tree only grows and the kept handler stays well formed |
| Blocks.RetryAfter | src/lexer.cpp:270-281 | a retry yields a fresh handler of a registered kind, strictly earlier in the search's measure, that can handle the line or is the paragraph fallback; none is left only at end of file |
| Blocks.Handle | src/handlers.cpp:53-744 | handling only grows the tree and keeps the handler's kind and id; errors come only from the header checks of an info block, a definition, a footnote or a collapse block, before any content exists |
| Blocks.StripIndent | src/handlers.hpp:30-39 | the first line fixes the indent; a blank run of that width is consumed, a wider one only shrinks by the indent, and a line end is kept |
| Blocks.HandleBlock | src/handlers.hpp:30-47 | a block line only changes the handler's indent and nested handler, and fixes the indent on the first line |
| Blocks.Finish | src/handlers.cpp:77-744 | a heading or rule yields nothing at the end; a list yields itself with the open item added; a code block yields a paragraph of its lines; every other block yields its content and drops it |
| Blocks.FinishBlock | src/handlers.hpp:49-54 | finishing a block only moves the nested handler's result into the content |
| Blocks.HandleParagraph | src/handlers.cpp:53-75 | the paragraph keeps one content element; an empty line finishes it, yielding it only when it holds something; otherwise a non-empty line is added and it stays open |
| Blocks.StartParagraph | src/handlers.cpp:54-59 | a new paragraph starts after the leading blanks |
| Blocks.HandleHeading | src/handlers.cpp:99-119 | a heading records the number of `#` as its level and holds inline text |
| Blocks.HandleHLine | src/handlers.cpp:143-147 | a rule consumes the dashes and the line end and yields an `HLine` |
| Blocks.HandleBlockquote | src/handlers.cpp:174-200 | the first line creates the blockquote, centred when the marker is `>>` or longer; later lines keep it |
| Blocks.HandleList | src/handlers.cpp:226-321 | the list is created once; a marker line starts a new item, numbered for an ordered list; an indented or empty line keeps the item |
| Blocks.ListItem | src/handlers.cpp:226-321 | a new item goes into the list after the previous item is added to it |
| Blocks.PushItem | src/handlers.cpp:226-321 | the open item ends up in the list's elements |
| Blocks.HandleCode | src/handlers.cpp:350-431 | the first line opens the fence with its number of backticks, at least three; every later line adds one line |
| Blocks.OpenCode | src/handlers.cpp:351-364 | the language is the text up to the first blank after the fence |
| Blocks.CodeLine | src/handlers.cpp:366-389 | each line adds one `PlainText` holding the text read up to the closing fence; closing yields a `CodeBlock` with the language and all lines, and makes the block the parent of its command line, as `addCommand` does |
| Blocks.ReadCodeLine | src/handlers.cpp:370-374 | a line is read literally up to the closing fence or the line end |
| Blocks.HandleInfo | src/handlers.cpp:460-515 | without content the header decides: an error when it does not match, otherwise an `InfoBlock` with the header's type and marker |
| Blocks.InfoHeader | src/handlers.cpp:462-491 | the header read is `InfoHead` |
| Blocks.HandleIdDef | src/handlers.cpp:554-623 | a header that does not match or has no known bracket is an error; `(` and `{` definitions finish on their line with that id and type, `<` ones stay open |
| Blocks.Define | src/handlers.cpp:587-617 | a one-line definition of the given id and type, or an open `<` definition with an empty url |
| Blocks.IdLine | src/handlers.cpp:589-603 | a `(` definition takes its url and command from `parseLink`, a `{` definition reads the rest of the line as its command |
| Blocks.HandleFootnote | src/handlers.cpp:651-678 | without content, an error when the header does not match, otherwise a `FootnoteBlock` whose id `makeId` derives from the name |
| Blocks.HandleCollapse | src/handlers.cpp:708-732 | without content, an error when the markers do not match, otherwise a `CollapseBlock` that is open exactly when the marker has two characters |
| Blocks.MakeCollapse | src/handlers.cpp:720-725 | the summary line is read and a collapse element with the given open state is added |
| Blocks.TextOrEmpty | src/AST.hpp:701-703 | a missing summary or heading text becomes a fresh empty inline text |
| Blocks.ParseDocument | src/lexer.cpp:303-315 | a document is a fresh `Document` with no definitions; a finished run ends at end of file with no handler open |
| TableOfContents.FlatListAppend | src/main.cpp:89-110 | flattening a table of contents distributes over concatenation |
| TableOfContents.NestUnderLast | src/main.cpp:104-107 | nesting a sub-list under the last item keeps the top-level links and appends the sub-list's links |
| TableOfContents.AppendItem | src/main.cpp:93-102 | a heading of the current level becomes a new top-level item |
| TableOfContents.NestRun | src/main.cpp:104-107 | a run of deeper headings nested under the last item extends the links in order and leaves the top level alone |
| TableOfContents.TocLevel | src/main.cpp:89-110 | `tocLevel` returns exactly the list and stop position of the reference definition `TocOf`, in which every sub-list is the `tocLevel` list of its own run; it consumes the maximal run of headings at least as deep as the first, lists every consumed heading exactly once in order, and puts exactly those of the first level at the top |
| TableOfContents.TocSibling | src/main.cpp:93-102 | a heading of the current level is appended as a new top-level item without sub-lists |
| TableOfContents.TocDeeper | src/main.cpp:104-107 | the recursive call on a deeper heading nests `TocOf` of that run, the run's own `tocLevel` list, under the last item and resumes where that run stops; the run is non-empty and deeper, and the listing stays in order with the top level unchanged |
| TableOfContents.NestingExample | src/main.cpp:89-110 | headings at levels 1, 2 and 3 nest two levels deep: the level-3 item sits in the sub-list of the level-2 item, which sits in the sub-list of the level-1 item |
| TableOfContents.BuildToc | src/main.cpp:292-303 | no table is built exactly when the outline is empty; otherwise it is the concatenation `TocsFrom` of the `tocLevel` lists restarted at each stop, and lists every heading of the outline in order |
| TableOfContents.TouchedKeepsListing | src/main.cpp:288 | reading `flags["notoc"]` inserts the key but never changes whether the heading is listed, nor any existing flag |
| TableOfContents.TouchedTwice | src/main.cpp:288 | reading the flag twice is the same as reading it once |
| TableOfContents.CollectOutline | src/main.cpp:285-290 | the outline of one document is its top-level headings not marked `notoc`, in order, each with its level, literal text and id; the only change to the tree is the inserted flag on those headings |
| TableOfContents.ReadElement | src/main.cpp:286-289 | one turn of the collection loop extends the outline by the element when it is a listed heading and inserts its flag |
| TableOfContents.HeadingEntry | src/main.cpp:96-97 | the entry read from the tree after some flags were inserted is the one of the original tree |
| TableOfContents.ReadDocument | src/main.cpp:284-291 | one turn of the loop over documents extends the outline by that document's |
| TableOfContents.ReadingComposes | src/main.cpp:284-290 | inserting the flags of one set of headings and then of another is inserting those of both |
| TableOfContents.OutlineAfterReading | src/main.cpp:284-290 | inserting the flag does not change the outline read afterwards |
| TableOfContents.InsertToc | src/main.cpp:276-306 | outside the main execute step or on a non-container nothing changes; otherwise the outline of every document's top-level headings is read, nothing is built exactly when it is empty, and the table lists it in order |
| TableOfContents.DecimalRoundTrip | src/main.cpp:318 | reading back the decimal `std::to_string` writes gives the same number |
| TableOfContents.ToDecimal | src/main.cpp:318 | `std::to_string` writes a non-empty string of digits with no leading zero |
| TableOfContents.DigitChar | src/main.cpp:318 | each digit value is written as the digit character of that value |
| TableOfContents.WrittenIsLeading | src/main.cpp:316-318 | the whole of a written number is its own leading digit run |
| TableOfContents.LinksAppend | src/main.cpp:291 | the links of an outline distribute over concatenation |
| TableOfContents.UseNum | src/main.cpp:308-319 | in the main execute step, when the parent is a list element, that element's `value` attribute becomes the decimal of its index, or of the leading number of the first argument when the argument starts with a digit; everything else, and everything in any other case, is unchanged |
| TableOfContents.ParseULong | src/main.cpp:316 | `std::stoul` on a string starting with a digit gives the value of its leading digit run |
| TableOfContents.UseNumReadsBack | src/main.cpp:308-319 | the `value` attribute reads back as the number chosen |
| Highlighter.SplitStr | src/highlighter.cpp:43-63 | `splitStr` yields exactly `Split` of the input: only non-empty tokens containing no delimiter, and their concatenation is the input with every delimiter removed |
| Highlighter.AddedProperties | src/highlighter.cpp:6-11 | adding a group keeps the names distinct and in order, appends the name only when it is new, and adds nothing else |
| Highlighter.SyntaxGroup.constructor | src/highlighter.hpp:10-20 | a fresh syntax group has no groups and no patterns |
| Highlighter.SyntaxGroup.AddGroup | src/highlighter.cpp:6-11 | the name is appended unless already present (see AddedProperties); the patterns are unchanged and distinct names stay distinct |
| Highlighter.SyntaxGroup.AddMatch | src/highlighter.cpp:21-38 | the group is added and its pattern list, empty when it had none, is extended by the new patterns in order; other groups' patterns are unchanged |
| Highlighter.OrderedMatches | src/highlighter.cpp:203-220 | the position-ordered set is `FirstMatches` of the matches, which keeps, for every position any match starts at, the first match found there, and nothing else |
| Highlighter.StitchCoversInput | src/highlighter.cpp:222-241 | the pieces written, put back together, are exactly the input; they alternate plain gaps and matches and each match is written with its group |
| Highlighter.FirstMatchWritten | src/highlighter.cpp:231-238 | the text before the first match comes out plain, followed by the match in its group |
| Highlighter.OverlapSkipped | src/highlighter.cpp:222-226 | a match that starts inside text already written is skipped |
| Highlighter.HighlightCallback | src/highlighter.cpp:200-241 | the writer is called with exactly `Stitch` of the input and `FirstMatches` of the matches, the set `emplace` builds from them; the texts reassemble the input exactly, the calls are odd in number and every other one, starting with the first and the last, is plain |
| Compiler.SpaceFrom | src/notedown-compiler.cpp:114 | `find_first_of(' ')` gives the first space at or after the start, or the end when there is none |
| Compiler.EmplaceAllFirstWins | src/notedown-compiler.cpp:117-124 | `emplace` adds exactly the new shortcodes, maps them to the line's emoji and never overwrites an existing one |
| Compiler.TableKeeps | src/notedown-compiler.cpp:104-127 | reading a table keeps every shortcode already known, with its emoji |
| Compiler.TableLineAdds | src/notedown-compiler.cpp:104-127 | every shortcode of a well-formed line ends up known |
| Compiler.ShortcodesAreSplit | src/notedown-compiler.cpp:113-124 | the shortcodes read from a line are its words after the emoji, split on spaces, with empty ones dropped |
| Compiler.ShortcodesWellFormed | src/notedown-compiler.cpp:113-124 | every shortcode read is non-empty and holds no space |
| Compiler.EnterBlockMeaning | src/notedown-compiler.cpp:65-72 | `addHandler` fails exactly when the name is taken, and then changes nothing; otherwise the handler is appended, the name maps to its index, no other name changes, its trigger characters become symbols, and the registry stays well formed |
| Compiler.EnterInlineMeaning | src/notedown-compiler.cpp:81-88 | the same for `addInlineHandler` on the inline handler list |
| Compiler.EnterBlockAliasMeaning | src/notedown-compiler.cpp:74-79 | `addHandlerAlias` succeeds exactly when the alias is free and the name is known; then the alias maps to the name's index and nothing else changes; on failure nothing changes |
| Compiler.EnterInlineAliasMeaning | src/notedown-compiler.cpp:90-95 | the same for `addInlineHandlerAlias` |
| Compiler.DefaultsRegistered | src/handlers.cpp:6-33 | when none of the default names is taken, the ten block handlers and the paragraph handler are appended in order, the ten inline handlers likewise, and `H_default` names the paragraph handler |
| Compiler.SweepVisits | src/notedown-compiler.cpp:179-224 | each pass visits every document once, in order |
| Compiler.ScheduleSteps | src/notedown-compiler.cpp:178-225 | the schedule holds only the listed steps |
| Compiler.ScheduleInOrder | src/notedown-compiler.cpp:178-225 | steps listed in increasing order are run in that order across all documents |
| Compiler.PrepareOrder | src/notedown-compiler.cpp:178-225 | `prepareAST` runs Register, Resolve, Consume and the three execute steps, each over all documents before the next, and never the Identify step |
| Compiler.NotedownCompiler.constructor | src/notedown-compiler.hpp:54 | a new compiler has no handlers, names, symbols, emojis, functions, definitions or documents |
| Compiler.NotedownCompiler.AddSymbols | src/notedown-compiler.cpp:135-138 | every character of the string becomes a symbol; nothing else changes |
| Compiler.NotedownCompiler.AddHandler | src/notedown-compiler.cpp:65-72 | the registrations and the result are those of EnterBlock; the lookups and documents are unchanged |
| Compiler.NotedownCompiler.AddHandlerAlias | src/notedown-compiler.cpp:74-79 | the registrations and the result are those of EnterBlockAlias; nothing else changes |
| Compiler.NotedownCompiler.AddInlineHandler | src/notedown-compiler.cpp:81-88 | the registrations and the result are those of EnterInline; nothing else changes |
| Compiler.NotedownCompiler.AddInlineHandlerAlias | src/notedown-compiler.cpp:90-95 | the registrations and the result are those of EnterInlineAlias; nothing else changes |
| Compiler.NotedownCompiler.AddDefaultHandlers | src/handlers.cpp:6-33 | the registrations become those of the default sequence; when no default name was taken, the handler lists grow by the defaults and `H_default` names a paragraph handler |
| Compiler.NotedownCompiler.AddEmojiLine | src/notedown-compiler.cpp:105-126 | a line with an emoji before its first space adds its shortcodes, first one wins; any other line changes nothing |
| Compiler.NotedownCompiler.AddEmojiTable | src/notedown-compiler.cpp:104-127 | the emoji table becomes that of reading every line in order; nothing else changes |
| Compiler.NotedownCompiler.HandleRequest | src/notedown-compiler.cpp:235-248 | a request starting with `:` answers the emoji of the rest, stored in the temporary emoji, or nothing when unknown; any other request answers its definition, or nothing; the tables are unchanged |
| Compiler.NotedownCompiler.ModRequest | src/notedown-compiler.cpp:250-255 | the function registered under the name, or nothing exactly when there is none |
| Compiler.NotedownCompiler.AddModifierFunc | src/notedown-compiler.cpp:280-282 | `&name` becomes known, keeping an existing function; no other entry changes |
| Compiler.NotedownCompiler.AddGeneratorFunc | src/notedown-compiler.cpp:288-290 | the same under `$name` |
| Compiler.NotedownCompiler.AddDocument | src/notedown-compiler.cpp:145-160 | the parsed document is appended as the last document, above the nodes already there, with its `_filename` flag set |
| Compiler.NotedownCompiler.SharedPass | src/notedown-compiler.cpp:179-201 | one of the first three passes visits every document in order, keeps every node's kind and children, and leaves documents, registrations and lookups alone |
| Compiler.NotedownCompiler.ExecutePass | src/notedown-compiler.cpp:208-224 | one execute pass asks for exactly the function calls along every document's post-order walk, in order |
| Compiler.NotedownCompiler.PrepareAST | src/notedown-compiler.cpp:178-225 | the whole preparation follows the schedule of PrepareOrder, keeps the tree's shape and the registrations, and each execute step asks for the same calls |
| Compiler.NotedownCompiler.CopyDefinitions | src/notedown-compiler.cpp:183-184 | the shared definitions become the old ones overridden by the document's own |
| Compiler.NotedownCompiler.Walk | src/notedown-compiler.cpp:180-182 | processing one document keeps every node's kind and children and leaves everything else alone |

## Left out

- File and stream I/O. Opening files in `addEmojiLUT`, `addFromFile` and `addMatchFromFile`, and the error messages on `std::cerr`, are left out. The model takes the input text, the table lines and the file name as parameters.
- `std::istream` details. The fail state of the stream after `tellg` or `seekg` at end of input is not modelled, except that a timesnap stores the end-of-input flag. NUL characters and the `'\r'` that `getline` keeps are not modelled either.
- Threads and `mtx_documents`. Multithreaded `addFile` is left out. Documents are added one after another, in order.
- Regular expressions. The highlighter receives the matches as a parameter: each match has a position, a length and a group. `addLanguage`, `removeLanguage`, `removeGroup` on a syntax group, `addMatchFromFile` and `HighlighterEngine::highlight` are not part of this model.
- Calling modifier and generator functions. A registered function is a handle (`nat`). ExecutePass returns the calls that would be made, in order, and does not run them. PrepareAST's three execute steps therefore ask for the same calls, and the `now`, `notoc` and other functions registered in `src/main.cpp` are not run.
- The clock and `fmtNow`. The `now` generator depends on local time, so it is left out.
- HTML output. `getHtml`, `getRawHtml`, the `toJson` methods, `className` and the syntax-highlighted code container are not modelled. Only the HTML escaping (`Ast.EscapeHtml`) is.
- `getIdDef` and `registerNow` are left out. `prepareAST` collects the definitions itself.
- `addSyntax` and the style and CLI handling in `src/main.cpp` are left out, including the uninitialised `ignoreNext`.
- Ast.Tree: element ownership through `unique_ptr` is modelled as an arena of elements with parent indices. Recursive walks (`IsEmpty`, `LiteralText`, `PostOrder`, `ContainingElement`, `GetDocument`) take a fuel bound equal to the arena size, instead of a proof that the parent links are acyclic.
- Ast.GetDocument: an element with no document above it walks into a null parent in the C++ code. The model answers `None` there.
- Command.ParseCommand, Command.MergeCommands and Command.IntegrateCommands: the `ASTCommand` object is updated in place in the C++ code. The model computes the new command as a value, and the tree methods store that value.
- Command.ConstructHeader: the C++ code iterates unordered containers, so the order of classes, style entries and attributes in the header is not fixed. The contract states only that the header is empty exactly when there is nothing to write, and that it starts with the id. It does not state the text of the class, title, style and attribute parts.
- Lexer.Parser: number values come from `stoi`, and `usenum` uses `stoul`. Their `out_of_range` exceptions are not modelled. TableOfContents.UseNum requires the written number to fit in `unsigned long`.
- Lexer.Parser.constructor: the C++ code leaves `lastToken`, `lastInt` and the quote state of `readUntil` uninitialised until the first `gettok`. The model starts them as a text token with count `0` and outside quotes.
- Strings: the C++ code works on `std::string` bytes, and the model works on sequences of characters. Lengths, positions and single-character tests agree for ASCII input only. For other text they differ: `e.length() > 4` in `src/AST.cpp:138`, modelled in `Command.ParseCommand`, counts the bytes of `>p:é` as 5 where the model counts 4 characters.
- Handler ids: the code that assigns a handler's id is not part of this model. The model uses the handler's registration index.
- Inline.Smiley: an even run of colons makes the emoji handler succeed without consuming anything. In the C++ code, `parseText` would then see the same token again and never end. The model's fuel bound cuts this loop off, and whether the loop terminates is not stated.
- Inline.ParseText, Inline.ParseInline, Blocks.ParseLine and Blocks.ParseDocument: these carry a `fuel` parameter for termination. What happens when the fuel runs out is not part of the C++ behaviour.
- Inline.Template: when nothing follows the indicator before the line ends, the C++ code prepends to a null text. The model starts an empty text instead.
- Blocks.HandleHeading and Blocks.HandleCollapse: a heading or collapse summary with no text gets a null content in the C++ code, and the `ASTHeading` and `ASTCollapseBlock` constructors then dereference it (`src/AST.hpp:545-547`, `src/AST.hpp:701-703`), so `#` or `++-` alone on a line crashes. The model substitutes an empty `InlineText` (`Blocks.TextOrEmpty`) and does not model the crash.
- Blocks.FinishBlock: a list item that has an open nested handler but no content dereferences null in the C++ code. The model skips finishing the nested handler then. This cannot happen in practice, because the first list line always opens an item.
- Blocks.HandleBlockquote: the `centered` and `indentStyle` fields of `BlockquoteHandler` are written but never read in the C++ code. The model does not keep them.
- Blocks.HandleBlock: states how the handler's indent and nested handler change. It does not state that the content holds exactly the results of the nested handlers.
- Compiler.NotedownCompiler.AddDocument requires the registered `H_default` to be a paragraph handler. `addDefaultHandlers` sets that up, and without it the C++ code's default dispatch has no handler that always succeeds.
- Compiler.NotedownCompiler.AddDefaultHandlers: its concrete result is stated only when none of the default names is taken yet. For any other registry it is stated through `DefaultsAfter`.
- TableOfContents.InsertToc: the C++ code materialises the table as list elements with `setContent`. The model returns the table as a value and does not add it to the tree.

## Findings

| source | as written | input that shows it | evidently intended | confidence | as-written member | corrected member |
|---|---|---|---|---|---|---|
| src/notedown-compiler.cpp:58-62 | `invalidChars` holds when every character is valid, and the result negates it, so `isId` is true only for ids that do contain an invalid character | `"a"` (the id `makeId` makes from the heading text `"A"`) is rejected | a lowercase first character and only `a-z 0-9 _ -` | high, not executed | Ids.IsIdAsWritten, Ids.IsIdAsWrittenRejectsMadeIds, Ids.IsIdAsWrittenCounterexample | Ids.IsId, Ids.IsIdAcceptsMadeIds |
| src/handlers.cpp:1045-1053 | `checked` is read after `gettok` has consumed the `x`, so it holds `]` | `[x] done` records the mark `]`, so the task is never shown as checked | record the tick `x` or `X` | high, not executed | Handlers.TickedBoxRecordsBracket, Handlers.TickedBoxDiffers | Handlers.TaskBoxRecordsTick (used by Inline.TaskHandler) |
| src/lexer.cpp:354-370 | when no later handler accepts the symbol, it is printed as text and consumed, but `err` keeps the failure's value, so the loop searches again from the first handler on the next token | `[a` at the end of input with the default handlers: the modifier handler accepts `[` before text and fails when the line ends without `]`, the task handler does not accept `[a`, and the loop never ends | the literal text ends the retry loop | high, not executed | Inline.RoundAsWritten, Inline.RetryAsWrittenDrifts, Inline.RetryAsWrittenHangsAtEnd | Inline.RoundCorrected, Inline.RetryCorrectedProgresses (used by Inline.InlineAt) |
