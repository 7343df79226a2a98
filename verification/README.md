# A model of go-yaml's stateful core

This Dafny project models the parts of go-yaml that keep a fast, streaming or incremental form of something
simple, and proves that the two agree. Where the code does less than its comments say, the project keeps the
code, proves exactly when the promise holds, and gives an input for which it does not.

The modules, by the part of the library they model:

- **Verbatim writer** (`VerbatimText`, `Verbatim`, `VerbatimLaws`, `VerbatimRun`, `VerbatimGap`, `VerbatimDrops`): the forward-only
  copier over the source bytes, its queue of comment edits and its treatment of the lines a removed node left.
  `Verbatim` holds the writer as a class, each method proved against a function of its state; `VerbatimLaws` and
  `VerbatimRun` prove what whole renderings come to, `VerbatimGap` what is left of a gap, `VerbatimDrops` which of
  its lines go, from the text alone.
- **Deferred rendering** (`TextLayout`, `Rendered`, `RenderedLead`, `BlockScalar`): the rope whose indentation is a
  number on a node, against joining strings and indenting every line; its opening break taken off; and literal block scalars printed and read back.
- **JSON conversion** (`JsonValue`, `JsonText`, `JsonPath`, `JsonMembers`, `JsonEmit`, `JsonMerge`, `JsonNumber`): values as tokens,
  tokens as text, the depth and JSON pointer at each token, merge runs, trees with aliases and `<<` handed over,
  what they denote said of their entries alone, and numbers recognised and respelled.
- **Node arena** (`ArenaModel`, `Arena`): a bump allocator with a mark stack, as a machine and as chunks of cells.
- **Merge folding** (`MergeFold`, `MergeTree`, `MergeOrders`, `MergeKeys`): a mapping with `<<` read in one pass and in
  document order, read from the tree own entries first, and looked up by name; and which keys either reading holds.
- **Anchors** (`Anchors`), **token window** (`TokenWindow`), **key identities** (`KeyIdentity`) of the parser, and
  **copied values** (`CopyValue`) of the walk.
- **Struct fields** (`Flatten`, `FlattenWritten`): encoding/json's dominance rule over embedded types, and the encoder
  against it.

A byte of a text is a `char` below 256. Go's iteration over a map is a choice of any key left. Integers are
unbounded.

What the code does where it does less than it says, each with the condition under which it does, exact unless
it says otherwise:

- A comment removed at the end of a line keeps the blanks in front of it where another edited comment is still to be
  written when the token before it is (`VerbatimRun.CommentsAloneEdited`, `VerbatimRun.BlankKept`).
- With a transform installed, comment edits in front of the last token's end are lost
  (`VerbatimRun.EditsUnderTransform`, `VerbatimRun.EditLost`).
- A flow entry removed from a line after the first of its gap is written back
  (`VerbatimGap.GapSettled`, `VerbatimGap.FlowEntryWrittenBack`).
- A sequence entry with a blank line above it is a rope the eager form would indent and the deferred one does not
  (`Rendered.EntryUnderBlank`, `Rendered.WrittenAsHung`).
- `withoutLead` leaves a break behind an empty first part (`RenderedLead.WithoutLead`, `RenderedLead.LeadKept`).
- A block scalar whose header states a width does not come back where that width is more than nine
  (`BlockScalar.WideIndentLost`).
- `jsonNumberText` takes a text with two points, as `1..5` (`JsonNumber.RespelledIsJson`).
- Expanding aliases refuses an anchor name met again while one of that name is being written out, cycle or not
  (`JsonEmit.RefusedExactly`, `JsonEmit.ReusedNameRefused`).
- A merged sequence of mappings that themselves merge before their own keys is read differently from the tree and by
  the walk where a `<<` in front overtakes an own entry (`MergeOrders.ReadAlike`, `MergeOrders.OrdersPart`).
- `LookupMerged` finds a number or other key spelled as the string is, where it comes first (`MergeTree.LookupAgrees`).
- An alias is resolved to an open anchor of its name before a more recent one closed inside it, and to the outer one
  once both are closed; the comment in `parser/anchors.go:198` says otherwise
  (`Anchors.MostRecentMeant`, `Anchors.OuterAnswered`).
- A token added at the end of a run is missed by a read cached there (`TokenWindow.AddedRefines`, `TokenWindow.AddedMissed`).
- A name declared again on a node with nothing to compare it by keeps the identity it had
  (`KeyIdentity.MostRecentAnswers`, `KeyIdentity.EarlierStands`).
- Two keys that are not one share an identity where a scalar in one is spelled like what joins scalars in the other; none do
  where no scalar is spelled so, a condition that suffices (`KeyIdentity.NamedApart`, `KeyIdentity.TwoKeysNamedAlike`).
- A `map[any]any` under an alias is shared and not copied (`CopyValue.ValueBuilder.Copy`, `CopyValue.AnyMapShared`).

## Model

| member | source | states |
|---|---|---|
| VerbatimText.FindLineStart | ast/verbatim.go:757-765 | finds where a line opens: the last break in front, and none between |
| VerbatimText.FindText | ast/verbatim.go:511-528 | reads a stretch past spacing, commas, comments, byte order marks and loose dashes, and answers whether anything else stands in it |
| VerbatimText.TextIs | ast/verbatim.go:511-528 | which text that is, character by character: one that is no layout, stands in no comment and no byte order mark, and is no loose dash |
| VerbatimText.DocumentEndIs | ast/verbatim.go:537-545 | a document end marker is "..." with no such text behind it |
| VerbatimText.FindNodeText | ast/verbatim.go:467-484 | line by line, whether a stretch holds text a node left; a "..." opening its line is none |
| Verbatim.VerbatimWriter.Take | ast/verbatim.go:651-676 | what a replaced node left behind is dropped up to the spacing that closes the stretch |
| Verbatim.VerbatimWriter.UpTo | ast/verbatim.go:284-301 | upTo takes the copy where the specification of the copy says; with applyEdits it ends, on the edits still pending |
| Verbatim.VerbatimWriter.ApplyEdits | ast/verbatim.go:613-640 | applyEdits carries out every pending edit in front of a place, and passes over those behind the copy |
| Verbatim.VerbatimWriter.SkipComment | ast/verbatim.go:726-778 | skipComment leaves out exactly the span an edit stands for |
| Verbatim.VerbatimWriter.UpToToken | ast/verbatim.go:697-712 | upToToken hands over the lead and the token and applies no edit |
| Verbatim.VerbatimWriter.FindTokenEnd | ast/verbatim.go:887-935 | where a token's text ends, its spacing held back before a removal or a break |
| Verbatim.VerbatimWriter.SettleGap | ast/verbatim.go:323-380 | settleGap refuses a gap within a line and else takes the copy past the lines to leave out |
| Verbatim.VerbatimWriter.FindDrops | ast/verbatim.go:337-372 | the loop that reads a gap line by line |
| Verbatim.VerbatimWriter.WriteTokenOf | ast/verbatim.go:1880-1893 | one token written, gap settled first, on the path a transform does or does not take |
| Verbatim.VerbatimFile | ast/verbatim.go:2188-2223 | a whole rendering is the run of its tokens, then the text behind the last, then the edits left |
| VerbatimLaws.RunFollows | ast/verbatim.go:284-301 | over every run of upTo, upToToken, settleGap, raw text, dropping and flushing the cursor never moves back, what is written stays, and the stretches written are apart and in source order |
| VerbatimLaws.NoByteTwice | ast/verbatim.go:697-712 | so no source byte is written twice and none out of order |
| VerbatimLaws.CarriedWhole | ast/verbatim.go:613-640 | carrying out one edit keeps "written so far, then what is still to come" equal to the spliced document |
| VerbatimLaws.AppliedWhole | ast/verbatim.go:613-640 | so does applyEdits, and it leaves exactly the edits from the place on |
| VerbatimLaws.AdvancedWhole | ast/verbatim.go:284-301 | so does upTo where it stops clear of the next edit's span; elsewhere the output grows by the blanks written too early |
| VerbatimRun.SpanTaken | ast/verbatim.go:715-754 | which bytes an edit takes: a replaced comment from "#" to its break; a removed one with every blank in front, and its break only where it is alone on its line |
| VerbatimRun.StopsWhole | ast/verbatim.go:284-301 | stopped at any places whatever, the copy writes the document with the edits spliced if and only if no stop lies among the blanks a removed comment takes with it |
| VerbatimRun.StopClear | ast/verbatim.go:887-935 | a token's end is such a stop exactly when a removed comment stands right behind the token, blanks in front, and another edit is pending first |
| VerbatimRun.CommentsAloneEdited | ast/verbatim.go:2188-2223 | a tree whose comments alone were replaced or removed is written with exactly those spans spliced, if and only if no removal waits behind another edit at a token's end |
| VerbatimRun.BlankKept | ast/verbatim.go:887-894 | the case it misses: "#" over "a #b", the first replaced and the second removed, keeps the blank |
| VerbatimRun.EditsUnderTransform | ast/verbatim.go:697-712 | with an identity transform, edits in front of the last token's end are lost and those behind it are applied |
| VerbatimRun.EditLost | ast/verbatim.go:697-712 | a comment replaced that is written as it stood |
| VerbatimRun.UntouchedWrittenBack | ast/verbatim.go:2188-2223 | an untouched tree whose tokens cover all but layout comes back byte for byte, with or without an identity transform |
| VerbatimRun.WroteIsAdvanced | ast/verbatim.go:1880-1893 | between tokens with layout alone between them settleGap does nothing, and the copy stands where the token's text ends |
| VerbatimGap.PassedText | ast/verbatim.go:323-380 | what goes out in place of a gap is the gap less the drops, with every edit still ahead of the copy spliced in but for those of comments in a drop |
| VerbatimGap.GapSettled | ast/verbatim.go:323-380 | a gap within a line is refused; elsewhere the gap goes out less its drops and with the edits of its other comments, and text of a removed node is left if and only if it stands on the line of the token to come |
| VerbatimGap.FlowEntryWrittenBack | ast/verbatim.go:344-352 | the case it misses: a flow entry removed from a later line is neither left out nor refused |
| VerbatimDrops.GapLine | ast/verbatim.go:352-372 | a whole line of a gap goes if it holds text or no comment the tree holds opens it, and stays otherwise; a bare line goes exactly where the line above it went |
| VerbatimDrops.GapFirstLine | ast/verbatim.go:344-352 | what follows a token on its own line goes only where it holds text, and its break stays |
| VerbatimDrops.GapLastLine | ast/verbatim.go:337-343 | nothing outside the gap goes, and nothing of the line of the token to come |
| VerbatimDrops.CommentStays | ast/verbatim.go:363-368 | no comment the tree holds is lost to a gap where it opens its line and no removed text stands there |
| VerbatimDrops.HeadCommentKept | ast/verbatim.go:363-368 | a comment heading the entry behind a removed one, which stays |
| TextLayout.IndentLines | ast/render.go:1776-1798 | every line with content moved k columns, blank lines left empty: the layout function, on every text |
| TextLayout.HangingIndent | ast/render.go:1767-1774 | every line but the first |
| TextLayout.LayTwice | ast/render.go:1783-1798 | indenting twice adds the two up |
| TextLayout.LayConcat | ast/rendered.go:252-273 | laying out two texts in turn is laying out their concatenation |
| TextLayout.WriteIsLay | ast/rendered.go:252-284 | a writer that pads at each line's first character writes the layout of the text |
| Rendered.MakeLeaf | ast/rendered.go:78-85 | a leaf carries its text's length, breaks and opening break |
| Rendered.Shifted | ast/rendered.go:149-163 | a shift is left off where it changes nothing, and the piece stands for the text either way |
| Rendered.IndentedBy | ast/rendered.go:139-141 | stands for every line one level deeper |
| Rendered.HangingBy | ast/rendered.go:145-147 | stands for every line but the first |
| Rendered.WithoutEmpty | ast/rendered.go:123-135 | keeps the parts that write something, in order |
| Rendered.JoinPieces | ast/rendered.go:66-119 | whatever join drops or caches, the piece stands for its parts' texts joined as strings.Join does, by a break, by a space or by nothing, is written as they are, and carries the spans and leads of the text it is written as |
| Rendered.FactsHold | ast/rendered.go:22-26 | size, spans and leads are those of the text a piece is written as, and of its eager text |
| Rendered.LineWriter.WriteString | ast/rendered.go:252-273 | a string cut at its breaks comes out as if written character by character |
| Rendered.WriteTo | ast/rendered.go:219-237 | the walk writes the rope's deferred text |
| Rendered.LazyAgainstEager | ast/rendered.go:219-284 | deferred against eager from any writer state and under any indentation: never more, and the same exactly where the rope fits |
| Rendered.LazyIsEager | ast/rendered.go:219-284 | the deferred form writes the eager text if and only if shifted pieces begin lines and hanging ones do not |
| Rendered.Flatten | ast/rendered.go:208-215 | a rope flattened by a writer of its own |
| Rendered.WrittenAsHung | ast/rendered.go:219-284 | what any rope is written as, in any state: the eager text of the rope with its shifted pieces hanging where they stand inside a line, if and only if no hanging piece begins an indented line |
| Rendered.EntryUnderBlank | ast/render.go:754-867 | a rope the renderer writes that does not fit: a sequence entry with a blank line above it; what is written and what the eager form would give |
| RenderedLead.WithoutLead | ast/rendered.go:173-202 | what is left is written, under the break, as the piece given is, in any state and under any indentation; the eager text is right if and only if whatever was flattened fits; behind an empty first part joined by breaks the break stays |
| RenderedLead.CutAnywhere | ast/rendered.go:184-199 | the structural cut: where the part cut is written as it should be, so is the piece rebuilt around it |
| RenderedLead.FlattenedWrittenLike | ast/rendered.go:201-202 | the flatten: the text of a piece that fits, under its break, is written as the piece is |
| RenderedLead.LeadKept | ast/rendered.go:184-199 | the case withoutLead misses: nothing, a break, and a line |
| BlockScalar.StatedIndent | ast/render.go:1477-1485 | the width a header states, 0 where it states none |
| BlockScalar.RestateIndent | ast/render.go:1490-1506 | the width rewritten and nothing else, or the header left alone where one digit cannot hold it |
| BlockScalar.RestatedReads | ast/render.go:1490-1506 | a restated header reads as before but for its width |
| BlockScalar.BlockScalarBody | ast/render.go:1440-1460 | the value's lines, indented and each closed by a break, blank ones left empty |
| BlockScalar.LiteralAt | ast/render.go:1285-1336 | a literal's header and body as literalAt lays them out |
| BlockScalar.PrintedReads | ast/render.go:1285-1336 | printed at any columns and read by sections 8.1.1.1, 8.1.1.2 and 8.1.2 of YAML 1.2.2, the value comes back if and only if the chomping fits its trailing breaks and the header locates its content, by a width of one digit or by a first line that opens on no space |
| BlockScalar.RoundTrip | ast/render.go:1285-1336 | the same of printing under a node and reading the document back, the empty value and the root of a document (parent -1, lift 1) included |
| BlockScalar.WideIndentLost | ast/render.go:1490-1493 | the case the condition shuts out: under an indent of ten the header "\|2" cannot be restated, and no value with content comes back |
| BlockScalar.HeaderReadsEmpty | ast/render.go:1303-1316 | an empty value, printed as its header without a "+", reads back empty whatever the header asked for |
| BlockScalar.HeaderIs | ast/render.go:1477-1506 | a header is a "\|", at most one width from 1 to 9 and at most one of "+" and "-", in either order |
| BlockScalar.ChompedBySpec | ast/render.go:1303-1336 | the chomping the round trip reads by, by the characters of the header: "+" keeps every break, "-" none behind the content, and neither keeps one |
| BlockScalar.DedentBy | ast/render.go:1840-1856 | undoes indentLines on every text |
| JsonText.WriteTokens | codec/tojson.go:42-60 | the loop folds appendJSONToken over the tokens |
| JsonText.AppendValue | codec/tojson.go:67-94 | from any buffer a value's tokens add a comma where one is due and the value's compact text |
| JsonText.WritesText | codec/tojson.go:67-94 | from an empty buffer they add the compact RFC 8259 text and no more |
| JsonText.TextByParts | codec/tojson.go:67-94 | which is, literally, null, true, false, the digits, the quoted text, or the texts of the parts with commas between them in brackets or braces |
| JsonText.BodyByCode | codec/tojson.go:719-733 | what may stand between quotes, by the codes of section 7 of RFC 8259 |
| JsonText.QuotedIsString | codec/tojson.go:719-744 | what goes between quotes as it stands is a JSON string |
| JsonText.PrintableAsWritten | codec/tojson.go:736-744 | and printable ASCII but a quote and a backslash always does |
| JsonText.JsonNumbersOpen | codec/tojson.go:67-94 | every number of RFC 8259 is written in the characters the uniqueness of texts rests on |
| JsonText.TextUnique | codec/tojson.go:67-94 | a compact text is read back in one way only, under a quoter that writes JSON strings and no two alike |
| JsonText.DistinctTexts | codec/tojson.go:67-94 | so distinct values have distinct texts |
| JsonPath.JsonTokens.FillSlot | codec/jsontokener.go:525-541 | fillSlot counts one more value into the collection in hand |
| JsonPath.JsonTokens.Step | codec/jsontokener.go:490-521 | step moves path and depth onto a token |
| JsonPath.JsonTokens.AppendPath | codec/jsontoken.go:222-237 | writes the pointer of the open collections |
| JsonPath.AppendPointerToken | codec/jsontoken.go:241-257 | writes a segment escaped by section 3 of RFC 6901 |
| JsonPath.EscapingUndone | codec/jsontoken.go:241-257 | section 4 of RFC 6901 undoes that escaping on every segment |
| JsonPath.EscapedByCode | codec/jsontoken.go:241-257 | which writes "~" as "~0", "/" as "~1" and every other character as it is, wherever the segment is cut |
| JsonPath.PointerReadsBack | codec/jsontoken.go:222-257 | a pointer written from segments is read back as those segments |
| JsonPath.ValueFollows | codec/jsontokener.go:550-560 | a value's tokens, wherever one may stand, are each well formed there and fill the slot they are handed in |
| JsonPath.DepthIsOpen | codec/jsontoken.go:204-210 | the depth is the number of collections open |
| JsonPath.PathLeadsToValue | codec/jsontoken.go:204-237 | at every token of a value's stream the pointer, evaluated by section 4 of RFC 6901, yields the sub-value the token is, opens, closes or names, and the depth counts the collections open after it |
| JsonPath.DepthRestored | codec/jsontokener.go:490-521 | a whole value leaves the conversion as deep as it found it |
| JsonMembers.ValueEnd | codec/jsontokenmerge.go:191-210 | finds the end of the value beginning at an index |
| JsonMembers.ConsumedValue | codec/jsontokenmerge.go:191-210 | which is that value's own tokens, whatever follows |
| JsonMembers.MergedMembers | codec/jsontokenmerge.go:160-188 | cuts a run holding an object into its members |
| JsonMembers.SpansTile | codec/jsontokenmerge.go:160-188 | the members tile the stretch between the braces |
| JsonMembers.MembersOfRun | codec/jsontokenmerge.go:160-188 | on the token sequence of an object they are exactly its members, in order |
| JsonMembers.BringRun | codec/jsontokenmerge.go:121-140 | one run's members against the names taken |
| JsonMembers.CloseMapping | codec/jsontokenmerge.go:112-146 | emits what the runs bring in, then the closer |
| JsonMembers.BroughtOnce | codec/jsontokenmerge.go:112-146 | each name is brought once, never over an own key, and from the earliest run that names it |
| JsonMembers.FirstRunWins | codec/jsontokenmerge.go:112-146 | a name the first run holds and the mapping does not is the first run's |
| JsonMembers.EarliestRunWins | codec/jsontokenmerge.go:112-146 | whichever run first names a member the mapping does not write, that is what it holds |
| JsonMembers.BroughtInOrder | codec/jsontokenmerge.go:112-146 | and members are brought in the order of the runs |
| JsonMembers.FoldOrderedMapTokens | codec/jsontokener.go:433-471 | succeeds on a balanced value exactly when it is a sequence of one-member objects, and gives the object of the members at all places but those to drop, in order |
| JsonMembers.ScannedValue | codec/jsontokener.go:433-471 | a value inside an entry goes by whole, its own keys deeper than the entry's |
| JsonEmit.UnwrapMergeValue | ast/merge.go:119-137 | reads through anchors, tags and aliases, fewer than 64 of them |
| JsonEmit.MergeSources | ast/merge.go:94-112 | the mappings a "<<" names, earliest first, or none where something in it is no mapping |
| JsonEmit.Tokener.Emit | codec/jsontokener.go:333-407 | a token counted, checked against the budget and for form, and handed over |
| JsonEmit.Tokener.EmitTree | codec/jsontokenemit.go:237-287 | a node of an acyclic graph is handed over as exactly the tokens of the value it denotes, its slot filled and the depth restored; it stops only where there is no value or no room left |
| JsonEmit.Tokener.EmitMapping | codec/jsontokenemit.go:297-342 | own entries first, then the merged ones, earlier source first |
| JsonEmit.Tokener.EmitSequence | codec/jsontokenemit.go:274-279 | a sequence is handed over as its array's tokens |
| JsonEmit.ValueNamesOnce | codec/jsontokenemit.go:297-342 | no object of a denoted value names a member twice |
| JsonEmit.RefusedExactly | codec/jsontokenemit.go:199-229 | on an acyclic graph what goes over is the value the graph denotes without the check, unless an alias is reached while its name is being written out, and then nothing does |
| JsonEmit.NeverRepeats | codec/jsontokenemit.go:199-229 | no alias is reached so where each anchor has a name of its own |
| JsonEmit.NamesNeverRepeat | codec/jsontokenemit.go:199-229 | then refusing a name that is being written out refuses nothing |
| JsonEmit.ReusedNameRefused | codec/jsontokenemit.go:199-229 | the case it misses: an anchor name used twice makes an acyclic graph refused |
| JsonEmit.EmitDocument | codec/jsontokenemit.go:237-342 | a whole tree: refused exactly where it denotes no value, an alias is reached while its name is being written out, or its tokens are more than the budget given, else the token sequence of that value, no member named twice |
| JsonMerge.UnwrappedIsEnd | ast/merge.go:119-141 | unwrapMergeValue comes to where the chain of anchors, tags and aliases ends, if and only if it is shorter than its steps |
| JsonMerge.SourcesMerged | ast/merge.go:73-112 | what the "<<" entries bring in is what the mappings they name hold, and they are refused exactly where one names neither a mapping nor a sequence of mappings, fewer than 64 anchors, tags and aliases away |
| JsonMerge.MappingDenotes | codec/jsontokenemit.go:297-342 | said of the entries alone: a mapping denotes an object if and only if every "<<" names mappings and the first entry of every name is worth something, and then holds for each name what its first entry is worth, own entries before merged ones and each kind in document order, a merged mapping's "<<" under that name |
| JsonMerge.SequenceDenotes | codec/jsontokenemit.go:274-279 | a sequence denotes an array exactly where each item has a value, item for item |
| JsonMerge.ChainDenotes | codec/jsontokenemit.go:237-273 | any other node denotes what the first tag on it that resolves does, else what its chain ends on |
| JsonMerge.MergedThroughAlias | codec/jsontokenemit.go:329-339 | two mappings merged through an alias, the inner "<<" a key like any other |
| JsonNumber.DigitsFrom | codec/tojson.go:650-660 | where the digits from an index end, -1 where there are none |
| JsonNumber.IsJSONNumber | codec/tojson.go:546-579 | accepts exactly the number grammar of section 6 of RFC 8259 |
| JsonNumber.NumberByStages | codec/tojson.go:546-579 | that grammar is the one an automaton of its ten stages, stated by character codes, ends well on |
| JsonNumber.JsonNumberText | codec/tojson.go:608-646 | gives the text taken apart and respelled |
| JsonNumber.TakenOver | codec/tojson.go:608-646 | a text is taken apart in one way only |
| JsonNumber.RespelledIsJson | codec/tojson.go:608-646 | exactly which texts it gives a number for |
| JsonNumber.RespelledKeepsValue | codec/tojson.go:592-646 | on every text of the float production in section 10.3.2 of YAML 1.2.2, with or without "_", it succeeds with a JSON number of the same rational value |
| JsonNumber.UnderscoresGone | codec/tojson.go:592-600 | every "_" goes and nothing else, wherever the text is cut |
| JsonNumber.ValueOfParts | codec/tojson.go:592-646 | the value meant: the digits before the point as they stand, one behind it for a tenth of what it is in front, a "-" the other sign |
| JsonNumber.ValuesOf | codec/tojson.go:592-646 | two numbers by their values |
| JsonNumber.SecondPointTaken | codec/tojson.go:608-646 | it also takes digits, two points, digits |
| JsonNumber.SecondPointDropped | codec/tojson.go:608-646 | and spells them with one point, as 1..5 becomes 1.5 |
| JsonNumber.WithFraction | codec/tojson.go:663-672 | adds a fraction where there is neither point nor exponent |
| JsonNumber.FractionKeepsValue | codec/tojson.go:663-672 | which keeps a JSON number one, of the same value |
| JsonNumber.DecimalJson | codec/tojson.go:592-602 | a YAML float becomes a JSON number of the same value that still reads as a float |
| ArenaModel.MonotoneKept | ast/arena.go:188-246 | every step keeps the marks climbing towards the position in every block |
| ArenaModel.NoCellTwice | ast/arena.go:40-100 | over every run, between two requests that get one cell stands an operation that gave it back |
| ArenaModel.CommittedCellKept | ast/arena.go:379-401 | a cell handed out before a Commit is not handed out again until a Reset |
| ArenaModel.PinnedUntilReset | ast/arena.go:379-401 | positions never fall back below where the arena stood at a Commit |
| ArenaModel.NoChunkToSpare | ast/arena.go:40-72 | over every run, what a block has allocated stays less than the chunk it allocated last above the most it has had in use |
| ArenaModel.PopLowers | ast/arena.go:196-203 | in a run, Pop takes every block back to the mark it pops |
| Arena.LaterMarkIsMax | ast/arena.go:404-410 | of two marks the later is the one that counts more cells |
| Arena.Block.Advance | ast/arena.go:59-72 | the next chunk, a new one where none is left |
| Arena.Block.Next | ast/arena.go:40-56 | the cell at the position, holding nothing; no other cell changes |
| Arena.Block.Rewind | ast/arena.go:92-100 | back to a mark, the cells above it handed out again |
| Arena.Arena.Request | ast/arena.go:278-364 | a node of a kind: a cleared cell of its block at the position, no other touched, and the machine's step |
| Arena.Arena.Push | ast/arena.go:188-190 | marks where the arena stands |
| Arena.Arena.Pop | ast/arena.go:196-203 | rewinds to the last mark, as the machine does |
| Arena.Arena.Commit | ast/arena.go:379-401 | raises every outstanding mark to where the arena stands |
| Arena.Arena.Reset | ast/arena.go:263-267 | everything given back, the marks dropped, the chunk size set again |
| ArenaModel.BlockSize | ast/arena.go:255-266 | a chunk holds a quarter as many cells as the document has bytes, 16 at least and 512 at most |
| MergeFold.SameKeyIn | codec/decode.go:778-789 | finds a key that is one YAML key with another where Go tells them apart, in any order of the map |
| MergeFold.HeldIn | codec/walkvalue.go:534-550 | whether a mapping, widened or not, holds a YAML key |
| MergeFold.BuildFrame.Put | codec/walkvalue.go:479-497 | an own key replaces what a "<<" brought in under it, and widens the map where it is no string |
| MergeFold.BuildFrame.Bring | codec/walkvalue.go:553-566 | a key nothing holds is written, and noted where Go may tell it apart |
| MergeFold.MergeOne | codec/walkvalue.go:578-590 | a mapping merged adds exactly the keys nothing held, whatever order Go iterates it in |
| MergeFold.MergeInto | codec/walkvalue.go:578-609 | so does a sequence of them, the earlier first |
| MergeFold.AddAllIsExtend | codec/walkvalue.go:567-577 | adding pairs one by one is adding the map they come to |
| MergeFold.OwnAfterMerged | codec/walkvalue.go:569-573 | an own key written after merged ones is as if written before them |
| MergeFold.Walked | codec/walkvalue.go:466-609 | the one-pass reading in document order comes to own keys first, then each "<<", the first to write a key winning |
| MergeFold.OneReading | codec/decode.go:402-412 | two readings of the same content, each widened only where a key is no string, are one |
| MergeKeys.OneKeyOneIdentity | codec/decode.go:683-697 | two keys are one exactly where keyIDOf gives them one kind and one name |
| MergeKeys.FirstWinsHeads | codec/walkvalue.go:567-577 | of pairs in an order of precedence the first of each identity stands, and nothing else |
| MergeKeys.BothHoldEach | codec/decode.go:487-531 | every identity written anywhere in a document is held under exactly one key by either reading, no key gives way to one of another identity, and each stands with the value of the entry that precedence, said of the entries alone, reads it from |
| MergeKeys.ReadEach | codec/decode.go:402-412 | so of what the walk and the tree decoder return |
| MergeKeys.TwoDaysHeld | codec/decode.go:683-697 | two timestamps, one merged and one own, both held |
| MergeTree.SetToMapValue | codec/decode.go:487-531 | the tree decoder's two passes add own entries, then each merged one where none stands |
| MergeTree.TreeRead | codec/decode.go:487-531 | what it reads a mapping as |
| MergeTree.SetMerged | codec/decode.go:645-658 | what one "<<" brings in, own first for a mapping, entries as written for a sequence |
| MergeOrders.SameReading | codec/decode.go:591-658 | two lists of pairs come to one map if and only if every key is read from equal pairs |
| MergeOrders.FlatReadFrom | codec/decode.go:591-658 | for every key, the walk and the tree decoder read it from one pair, or from the own entry and the pair in front that clash at the mapping of a sequence the key is followed to |
| MergeOrders.ReadAlike | codec/decode.go:591-658 | the two orders come to one map if and only if no key is read from an own entry that a "<<" in front of it, in a mapping of a sequence, overtakes with another pair |
| MergeOrders.FlatInOrder | codec/decode.go:591-658 | where each mapping of a merged sequence writes its own entries in front of its "<<", that order is the order of precedence |
| MergeOrders.InOrderReadAlike | codec/decode.go:591-658 | so that no key is overtaken there |
| MergeOrders.OrdersPart | ast/ast.go:1684-1691 | the case the condition shuts out: the two readings give different values |
| MergeOrders.ReadBothWays | codec/decode.go:402-412 | the walk and the tree decoder read one document as the same map, widened in both or in neither, if and only if no key is overtaken |
| MergeTree.LookupIsFirst | ast/lookup.go:37-71 | LookupMerged finds the first entry of the name in the order of precedence |
| MergeTree.LookupAgrees | ast/lookup.go:37-71 | on a string key that is what the map holds if and only if the first pair spelled so is a string's |
| Anchors.AnchorTable.KeepAnchor | parser/anchors.go:141-151 | the innermost open anchor closed, its name standing for its node |
| Anchors.AnchorTable.FindOpenNode | parser/anchors.go:197-206 | the innermost open anchor of a name |
| Anchors.AnchorTable.ResolveAlias | parser/anchors.go:209-230 | an open anchor first, then a closed one, then a published one, else refused |
| Anchors.AnchorTable.Retag | parser/anchors.go:241-264 | the name and the aliases held back stand for the tagged node |
| Anchors.AnchorTable.Take | parser/anchors.go:267-284 | the targets held back filled in and the table emptied |
| Anchors.AliasAgrees | parser/anchors.go:209-230 | an alias is refused exactly where nothing declares its name; else the table agrees with the document |
| Anchors.AnswerExact | parser/anchors.go:196-230 | an alias is resolved to the most recent declaration if and only if that is still open or stands inside no node anchored under the same name |
| Anchors.MostRecentMeant | parser/anchors.go:20-24 | every alias of a document stands for the most recent earlier declaration of its name (section 3.2.2.2 of YAML 1.2.2), or else a published node, if and only if at each that declaration is open still or stands inside no node anchored under the name |
| Anchors.NoneRedeclaredClear | parser/anchors.go:20-24 | so it is where no name is declared again inside a node anchored under it |
| Anchors.MostRecentAnswered | parser/anchors.go:20-24 | the same of one alias at one place |
| Anchors.OuterAnswered | parser/anchors.go:196-206 | the case it misses: in "[&x [&x 1, *x]]" the alias names the outer anchor |
| Anchors.TakenTargets | parser/anchors.go:267-284 | at the document's end every alias is pointed at the node, tag and all, of the declaration it was resolved to |
| Anchors.ReadDocument | parser/anchors.go:80-284 | a document read through the table, as JSON or not: refused exactly where an alias names nothing or, as JSON, the node it stands in; else every alias has the target of the declaration it stands for and the table is empty for the next |
| Flatten.Dominant | codec/struct.go:728-761 | refuses a contested name by the two rules, and else picks by counting: the one candidate of least depth, or of several the one a tag names, or none |
| Flatten.WinsBeats | codec/struct.go:723-727 | that rule is to beat every other candidate |
| Flatten.Reached | codec/struct.go:621-665 | the fields a name reaches are exactly those that positions lead to through embedded structs, none met twice on the way |
| Flatten.ReachedOnce | codec/struct.go:621-665 | and none of them is reached twice |
| Flatten.TaggedOneWins | codec/struct.go:752-759 | of two fields at one depth the tagged one |
| Flatten.OneBeatsAll | codec/struct.go:723-727 | no two candidates both beat all others |
| Flatten.Flattener.Walk | codec/struct.go:621-665 | over any type graph, embedding itself or not, the walk ends and collects exactly the fields each name reaches, in whatever order Go iterates its maps |
| Flatten.Flattener.Resolve | codec/struct.go:672-715 | settles each name by its candidates alone, in any order |
| Flatten.ReadType | codec/struct.go:538-575 | a type is refused exactly where some name has no rule to settle it, else each name comes to what the rule, by counting, says of the fields it reaches |
| FlattenWritten.ReachIsCands | codec/struct.go:613-665 | where no type embeds itself, what a name reaches does not depend on the path there |
| FlattenWritten.PromotedAgrees | codec/struct.go:436-453 | a name the outer type reaches through a member is the one the embedded type reaches itself |
| FlattenWritten.NotRefusedUnder | codec/struct.go:728-761 | no embedded type is refused for a name the outer one is not refused for |
| FlattenWritten.EachNameOnce | codec/encode.go:1202-1236 | encoded, a struct writes each name it reaches exactly once, under the field decoding the name fills |
| FlattenWritten.ReadAndWrite | codec/encode.go:1202-1236 | the same of a type as the walk reads it: refused exactly where one of its names has no rule to settle it, else each name written once |
| TokenWindow.TokenRef.At | parser/context.go:72-78 | a read by the cached token or by drawing |
| TokenWindow.TokenRef.Draw | parser/context.go:84-104 | the stream read up to an index |
| TokenWindow.TokenRef.Forget | parser/context.go:113-124 | what lies behind the position dropped |
| TokenWindow.TokenRef.GoNext | parser/context.go:288-300 | moves on as the specification says |
| TokenWindow.TokenRef.AddToken | parser/context.go:335-339 | puts its token behind all there is |
| TokenWindow.TokenRef.NextNotComment | parser/context.go:154-166 | the first token past the position that is no comment, of the whole run |
| TokenWindow.ReadRefines | parser/context.go:72-104 | a read at or past the position gives the run's own token or nothing past its end, and loses nothing |
| TokenWindow.AdvancedRefines | parser/context.go:288-300 | goNext moves to the next token or past the end, the cached token in step, nothing behind the position held of a stream |
| TokenWindow.AddedRefines | parser/context.go:335-339 | addToken leaves the cached token in step unless it was cached at the run's end |
| TokenWindow.AddedMissed | parser/context.go:335-339 | the case it misses: a read there does not see the token added |
| TokenWindow.AddedThenNext | parser/context.go:314-325 | addNullValueToken puts it right again |
| TokenWindow.ReaderRefines | parser/context.go:43-140 | whatever the parser asks and in whatever order, the window answers as indexing the whole run would |
| KeyIdentity.Builder.WriteKeyIdentity | ast/keyidentity.go:74-133 | appends a node's identity to one builder, bounded in depth and bytes |
| KeyIdentity.Builder.WriteEntries | ast/keyidentity.go:136-153 | appends a mapping's |
| KeyIdentity.KeyIdentityWithAnchors | ast/keyidentity.go:58-65 | the identity of a node, empty where it has none |
| KeyIdentity.WroteSpelled | ast/keyidentity.go:74-153 | where it succeeds it appends the node's unbounded spelling and no more, whatever stood before |
| KeyIdentity.WroteExactly | ast/keyidentity.go:74-153 | and it succeeds if and only if every leaf has an identity and every node stands at most 64 deep and begins at most 4096 bytes in |
| KeyIdentity.IdentityExactly | ast/keyidentity.go:58-65 | so an identity is that spelling where it is within those bounds, and else there is none |
| KeyIdentity.NamedApart | ast/keyidentity.go:12-32 | keys without aliases whose scalars are spelled in none of "(),:" are named alike only where they are one key by section 3.2.1.1 of YAML 1.2 |
| KeyIdentity.TwoKeysNamedAlike | ast/keyidentity.go:12-32 | the case that condition shuts out: "[a, b]" and "['a,string/b']" are two keys with one identity |
| KeyIdentity.SameSpelling | ast/keyidentity.go:12-32 | nodes spelled alike, an alias and what it names among them, have one identity |
| KeyIdentity.IdentityBounded | ast/keyidentity.go:58-65 | an identity is at most 4160 bytes longer than its longest leaf |
| KeyIdentity.RecordedBounded | parser/anchors.go:177-187 | after k anchors none is recorded with more than 4160 k bytes and the longest leaf the document holds, whatever the alias graph |
| KeyIdentity.LastComparedAnswers | parser/anchors.go:177-187 | a name resolves to the identity of its last declaration that has an identity or a text to compare by, and to none where that has none |
| KeyIdentity.MostRecentAnswers | parser/anchors.go:177-187 | the most recent declaration of a name answers for it if and only if there is something to compare it by, or no earlier one left an identity |
| KeyIdentity.EarlierStands | parser/anchors.go:177-187 | the case it misses: "&x a", then "&x [*z]" while z is open; an alias of x is still named as "a" is |
| CopyValue.ValueBuilder.Copy | codec/walkvalue.go:370-407 | a copy is the same value, shares nothing with the original unless it holds a map by any key, and counts each value it holds; it is refused exactly where that passes the budget |
| CopyValue.ValueBuilder.CopyMap | codec/walkvalue.go:381-387 | a map built again, whatever order Go iterates it in |
| CopyValue.AnyShared | codec/walkvalue.go:381-406 | a map by any key is shared by every value that is the same |
| CopyValue.SameCount | codec/walkvalue.go:370-407 | a value that is the same holds as many values, so a copy of a copy counts as the first |
| CopyValue.CopyAliases | codec/decode.go:115-144 | over any run of steps that build values of earlier ones, copies among them, and alias them, at most 1025 + 32 n values are copied for a document of n bytes; it is refused exactly where they would come to more than 1024 + 32 n, and else each alias stands for an equal copy apart from all there was before it, maps by any key excepted, and every other value holds what it was built of |
| CopyValue.ChainMultiplies | codec/decode.go:115-120 | chained aliases multiply |
| CopyValue.AnyMapShared | codec/walkvalue.go:381-406 | the case copying misses: a map by any key under an alias is that map |

## Left out

- KeyIdentity.NamedApart: goes one way; keys that hold a scalar spelled with a bracket, a comma or a colon are named apart or alike by what else they hold.
- Anchors.AnchorTable.ResolveAlias: the positions in its errors are not modelled.
- JsonEmit.Tokener.EmitTree: is about acyclic graphs, the only ones the parser lets through for JSON; a cycle in nodes published from another parse is not modelled. It models no node that is missing under an anchor or a sequence, no `!!omap` tag inside a tree, no range body that stops early and no positions; what a tag resolves to, what a scalar is worth and what a key is named are given.
- VerbatimRun.CommentsAloneEdited: comments added beside a node are covered by `VerbatimRun.StopsWhole` and `VerbatimLaws.AdvancedWhole` at any stops, but not by this theorem about a tree's own tokens.
- FlattenWritten.EachNameOnce: is about types that do not embed themselves, and structs with no field omitted as empty; entries of an inline map are not modelled.
- MergeFold.Walked: a NaN key, which Go finds equal to nothing, is not modelled, and neither are sources that are no mappings, which both readings refuse.
- Arena.Arena.Request: the nine typed blocks are a sequence of nine, chunks are sequences a block holds, and a cell is named by its chunk and its place in it, so Go's pointers and the sharing of a chunk by slices are not modelled.
- CopyValue.ValueBuilder.Copy: Go's heap is a sequence of objects, each referring to earlier ones; a map or slice takes its address once it is filled.
- BlockScalar.RoundTrip: is about values with no carriage return in them, literal style, and headers that hold no comment; folded scalars are written from the text they were read from.
- Rendered.WriteTo: text is not truncated to 32 bits where a piece counts it, and a writer that fails is not modelled.
- The verbatim writer's inserted and replaced nodes, comments written above a node or hoisted, moved nodes, the transform's own fields and failing writers: layout heuristics and I/O.
- The token converter's visitor over a stream (`Enter`, `Leave`, `settleEntry`, `closeTag`, `releasePeeked`) and `emitOrderedMapTree`: the tree path, the merge runs and the ordered-map fold they share are modelled.
- Names matched by case folding and their numbering (`foldedNames`, `foldRune`, `ord`), and the error a refused type reports.
- `slab.take` and the runs of pointers an arena cuts from slabs: it keeps no mark and gives nothing back.
- The rest of the parser's contexts (`withX`), paths and line comments; the scanner, grouping and the key ledger: tokens are given as intervals, events or runs.
- Reflection, custom marshalers, tag parsing, `time`, `big` and float conversion: types are a finite graph and scalars opaque.
- Depth limits of the tree decoder, reference files, validators, comment maps and error formatting.
- `MapSlice` and the struct decoder's `writtenFields`: the same precedence, kept by position.
- Clone, Walk, Filter and the other accessors: true but easy.
