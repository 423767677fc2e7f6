# mui-mentions transcoding engine in Dafny

This project models the core of mui-mentions, a React text field with
@-mentions. The component's value is a markup string such as
`Hi @[Ann Lee](ann)`. The user edits a plain text such as `Hi Ann Lee`. The
engine converts between the two. The model covers these parts:

- **Js** (`js.dfy`): the JavaScript string built-ins the engine relies on,
  with their clamping and "not found" rules. These are `substring`, `slice`,
  `indexOf`, `lastIndexOf`, first-occurrence `replace` with `$` expansion,
  the `\s` class and the truncating `%`.
- **Types** (`types.dfy`): the default trigger, the default markup template,
  `DefaultDisplayTransform`, and the records a scan derives.
- **Grammar** (`grammar.dfy`): how a markup template becomes a matcher.
  - `countPlaceholders`, `findIndexOfCapturingGroup`, `escapeRegex` and
    `markupToRegex` are modelled.
  - The derived regular expression is the pattern it denotes: literal
    characters, plus one lazy hole `([^c]+?)` per placeholder.
  - A backtracking matcher is proved sound and complete for that pattern.
- **Scanner** (`scanner.dfy`): `iterateMentionsMarkup` as a loop.
  - The combined alternation is searched leftmost-first.
  - The match array is laid out group by group.
  - `captureGroupOffsets` and the `find` over it pick out the source that
    matched.
  - The scan reports text runs and mentions in order.
- **Transcoder** (`transcoder.dfy`): the callback users of the scan, each a
  loop proved against a fold over the scan's segments. These are
  `getPlainText`, `getMentions`, `getEndOfLastMention`, `mapPlainTextIndex`
  (START, END, NULL) and `findStartOfMentionInPlainText`.
- **Reconciler** (`reconciler.dfy`): `spliceString` and `applyChangeToValue`,
  which carry an edit of the plain text into the markup. The second pass for
  auto-correction is included.
- **Query** (`query.dfy`): the rest of the suggestion machinery.
  - `makeTriggerRegex` is modelled as a hand-written leftmost matcher.
  - Also `makeMentionsMarkup`, the static-list provider of `getDataProvider`
    with `getSubstringIndex`, and `countSuggestions`.
  - Also the shared steps of the components: the query window before the
    caret, the insertion of a chosen suggestion, the focus arithmetic, and
    the selection rule of `handleChange`.
- **Overlay**, **TextField**, **Input** (`overlay.dfy`, `textfield.dfy`,
  `input.dfy`): one class each for `SuggestionsOverlay`, `MentionsTextField`
  and `MentionsInput`.
  - Their React state becomes fields.
  - Their handlers become methods that update those fields.
  - Props, the event's fields, and the answers of data providers become
    parameters.

The central properties:

- `getPlainText` and `getMentions` agree with the scan.
  - The scan tiles the markup value.
  - Every mention's display sits in the plain text at its reported index.
  - Mentions come in order.
- `mapPlainTextIndex` with NULL gives null exactly for an index strictly
  inside a mention. With START or END it always gives a number.
- Splicing the old plain text at the normalised selection reproduces every
  edit a text field reports.
  - In a value without mentions, `applyChangeToValue` gives exactly the
    edited text.
  - An edit that touches a mention removes the whole mention.
- The query window yields a span holding the trigger followed by the query.
  A caret inside a mention starts no query.
- An event that leaves the plain text as it is keeps the value when the
  caret follows a text character. Right after a mention the source's
  composed-character rule destroys the mention; see "Findings".
- Inserting a mention replaces exactly the query in the plain text and puts
  the caret after the display.
- The focus wraps around the suggestion list and stays in it.

## Model

| member | source | states |
|---|---|---|
| Types.ConvertSpaces | src/types.ts:34 | every space becomes U+00A0, character for character, and the length is kept |
| Types.DefaultDisplayConvertsSpaces | src/types.ts:30-35 | with `convertSpaces` the result is `display \|\| id` with every space made non-breaking |
| Types.DefaultDisplayChoosesDisplayOrId | src/types.ts:31-33 | without `convertSpaces` the result is the display when there is one, else the id |
| Grammar.CountPlaceholdersCounts | src/utils/utils.ts:57-62 | the count is 0 exactly when neither placeholder occurs, and 2 exactly when both do |
| Grammar.PlaceholdersStartApart | src/utils/utils.ts:70-94 | the two placeholders never start at the same index, so their order is always decided |
| Grammar.CapturingGroupFollowsOrder | src/utils/utils.ts:70-94 | an error exactly when neither placeholder is used; 0 when only one is; with both, 0 for the parameter whose placeholder comes first and 1 for the other |
| Grammar.EscapeRegexReadsBack | src/utils/utils.ts:240 | the escaped text, read as a regular-expression source, denotes exactly the original characters |
| Grammar.CompiledHoles | src/utils/utils.ts:221-232 | the derived pattern has one hole per placeholder; the capture index of each parameter is the hole made from its placeholder; that hole stops at the template character after the placeholder |
| Grammar.Compile | src/utils/utils.ts:119-125 | a template that compiles gives a grammar with at least one hole, whose id and display capture indices lie within its holes |
| Grammar.PlaceholderlessPattern | src/utils/utils.ts:221-232 | a template without placeholders becomes the pattern of its own characters, with no hole |
| Grammar.MatchFromLiterals | src/utils/utils.ts:221-232 | a pattern without holes matches exactly as many characters as it has |
| Grammar.MatchFromSound | src/utils/utils.ts:221-232 | every match the lazy backtracking matcher reports is a genuine match of the derived pattern |
| Grammar.MatchFromComplete | src/utils/utils.ts:221-232 | the matcher misses no match: whenever the pattern can match at a position, it reports one |
| Grammar.HoleRunsToDelimiter | src/utils/utils.ts:221-232 | a hole followed by its stop character captures exactly the run up to the first occurrence of that character |
| Grammar.DefaultTemplateGrammar | src/types.ts:21 | the default template `@[__display__](__id__)` compiles to its pattern, with the display in capture 0 and the id in capture 1 |
| Scanner.FindMatchIsLeftmostFirst | src/utils/utils.ts:33-50 | one `exec` of the combined alternation is leftmost-first: no source matches before the reported position, and no earlier source matches at it; no report means no source matches anywhere after the search start |
| Scanner.ExecArrayGroup | src/utils/utils.ts:33-50 | in the match array, group offset(k) + c holds capture c when source k matched, and is undefined otherwise |
| Scanner.OffsetGroup | src/utils/utils.ts:127-141 | the group at a source's offset is its first capture when it has placeholders; for a template without placeholders it is the group wrapping the next source's pattern, or past the array for the last source |
| Scanner.FindTruthyAttributes | src/utils/utils.ts:141-144 | `find` attributes a match to the source before the one that matched when that source has no placeholder, to no source when the matching source has none, and otherwise to exactly the matching source |
| Scanner.AttributedGroups | src/utils/utils.ts:146-154 | in the array of a match of a source with placeholders, group 0 is the whole match and the groups at its offset plus the id and display capture indices hold those captures |
| Scanner.CaptureGroupOffsets | src/utils/utils.ts:127-133 | the loop computes the offsets 2, then each source adds its placeholder count plus one |
| Scanner.OffsetsAreHoleOffsets | src/utils/utils.ts:127-133 | for any sources whose templates compile or have no placeholder, the offsets computed from the placeholder counts are the positions of the sources' group blocks in the match array |
| Scanner.SourceGrammarFacts | src/utils/utils.ts:57-95 | a template that compiles has as many holes as placeholders and the capture indices `findIndexOfCapturingGroup` returns; a template without placeholders is matched literally and `findIndexOfCapturingGroup` fails on it |
| Scanner.SourceGrammarsCompiled | src/utils/utils.ts:119-125 | when every template compiles, the patterns the scan combines are exactly the compiled grammars |
| Scanner.DecodeFound | src/utils/utils.ts:141-154 | reading a match out of the array: passed over when `find` attributes it to no source, the exception when attributed to a template without placeholders, otherwise the matching source's mention with its id and (transformed) display |
| Scanner.DecodeAttributed | src/utils/utils.ts:146-154 | a match attributed to the template without placeholders before the matching source throws from `findIndexOfCapturingGroup`; one attributed to the matching source gives its mention |
| Scanner.ReadMention | src/utils/utils.ts:146-160 | the id and display read at the attributed source's offset and capture indices are that match's mention, with `displayTransform` applied |
| Scanner.ScanRound | src/utils/utils.ts:140-162 | one round: the exception, or `lastIndex` strictly advanced past the match with the segments reported (none when the match is passed over, otherwise the text before it and its mention) followed by the rest of the scan |
| Scanner.IterateMentionsMarkup | src/utils/utils.ts:104-168 | the loop reports exactly the scan's outcome, the segments or the exception; when every template compiles that is the scan's segments: text runs and mentions in order, and a final run when characters remain |
| Scanner.ScanAnyAgrees | src/utils/utils.ts:104-168 | when every template compiles, the scan never throws and its segments are those of the mention scan the other modules use |
| Scanner.SinglePlaceholderlessSource | src/utils/utils.ts:140-144 | with a single source whose template has no placeholder, every match is passed over and the value comes back as one text run |
| Scanner.ScanAnyFromSucceeds | src/utils/utils.ts:140-154 | the scan cannot throw when no template without placeholders precedes another source |
| Transcoder.ScanFromLayout | src/utils/utils.ts:136-167 | the segments lie back to back: each begins where the previous one ends, in the markup and in the plain text |
| Transcoder.ScanFromRebuilds | src/utils/utils.ts:156-166 | the text runs and mention markups concatenate back to the rest of the value |
| Transcoder.LayoutPositions | src/utils/utils.ts:158-161 | each segment's markup and plain-text positions are the lengths of the segments before it |
| Transcoder.TilingPlacesRaw | src/utils/utils.ts:156-160 | every segment sits in the value at its reported index |
| Transcoder.TilingPlacesShown | src/utils/utils.ts:157-161 | every segment sits in the plain text at its reported plain-text index |
| Transcoder.CollectPlainText | src/utils/utils.ts:182-191 | the callbacks append every text run and display in order |
| Transcoder.GetPlainText | src/utils/utils.ts:177-195 | `getPlainText` returns the plain text of the scan |
| Transcoder.PlainTextWithoutMentions | src/utils/utils.ts:177-195 | a value without mentions is its own plain text |
| Transcoder.ScanFromWithoutMentions | src/utils/utils.ts:165-167 | a scan that finds no mention reports the rest of the value as one text run |
| Transcoder.CollectMentions | src/utils/utils.ts:439-454 | one record is pushed per mention, in order |
| Transcoder.GetMentions | src/utils/utils.ts:439-454 | `getMentions` returns the scan's mentions |
| Transcoder.MentionsInOrder | src/utils/utils.ts:439-454 | each mention begins, in the markup and in the plain text, after the previous one ends |
| Transcoder.MentionsPlaced | src/utils/utils.ts:439-454 | each mention's display sits in the plain text at its reported plain-text index |
| Transcoder.GetEndOfLastMention | src/utils/utils.ts:471-478 | the result is the plain-text end of the last mention, or 0 when there is none |
| Transcoder.LastMentionEndBounds | src/utils/utils.ts:471-478 | the result bounds the end of every mention and lies within the plain text |
| Transcoder.LocatePlainTextIndex | src/utils/utils.ts:350-386 | the callbacks give the first catch: a text run ending at or after the index maps by its offset; a mention whose display ends after it gives null, its start or its end; else the value's length |
| Transcoder.MapPlainTextIndex | src/utils/utils.ts:340-387 | `mapPlainTextIndex` returns the first catch over the scan |
| Transcoder.MapInsideMention | src/utils/utils.ts:361-380 | an index strictly inside a mention's display maps to null (NULL), the markup start (START) or the markup end (END) |
| Transcoder.MapInsideText | src/utils/utils.ts:352-359 | an index inside a text run maps to the run's start plus the offset in the run |
| Transcoder.LayoutAfterMention | src/utils/utils.ts:156-161 | the segment after a mention begins where the mention ends, in the markup and in the plain text |
| Transcoder.MapAfterMention | src/utils/utils.ts:361-380 | the index just after a non-empty display maps to the end of the mention's markup, under every correction |
| Transcoder.MapOutsideMentions | src/utils/utils.ts:340-387 | an index strictly inside no mention maps to the same number under every correction; that number lies after the markup of every mention before the index and before the markup of every mention at or after it |
| Transcoder.MapNullIffInside | src/utils/utils.ts:340-387 | with NULL the result is null exactly for an index strictly inside a mention |
| Transcoder.MappedIndexNullIffInside | src/utils/utils.ts:340-387 | the same for a value's scan: null exactly inside a mention, a number otherwise |
| Transcoder.MapBoundaryNotNull | src/utils/utils.ts:370 | a mention's first position, and the position just after its display, never map to null |
| Transcoder.MapBeyondEnd | src/utils/utils.ts:384-386 | nothing catches an index past the plain text, so it maps to the value's length |
| Transcoder.MapStartEndNumeric | src/utils/utils.ts:374-378 | with START or END the result is always a number |
| Transcoder.MapWithoutMentions | src/utils/utils.ts:340-387 | without mentions every index inside the value maps to itself |
| Transcoder.LocateMentionStart | src/utils/utils.ts:417-427 | the callback leaves the start of the last mention whose display contains the index |
| Transcoder.FindStartOfMentionInPlainText | src/utils/utils.ts:410-431 | `findStartOfMentionInPlainText` returns that start, or undefined |
| Transcoder.MentionStartSound | src/utils/utils.ts:424-425 | a reported start belongs to a mention containing the index; no report means no mention contains it |
| Transcoder.MentionStartIff | src/utils/utils.ts:410-431 | a mention's plain start is reported exactly when the index lies in that mention's display |
| Transcoder.ScanMentionStart | src/utils/utils.ts:410-431 | an index inside mention i of a value's scan finds that mention's start |
| Reconciler.SpliceString | src/utils/utils.ts:397-399 | the string up to the clamped start, the insert, and the rest from the clamped end; in range, the length changes by the insert minus the span |
| Reconciler.NormalisedSpliceReproducesEdit | src/utils/utils.ts:262-292 | for every edit a text field reports (typing or pasting over a selection, Backspace, Delete, a composed character), splicing the old plain text at the normalised selection gives the new plain text |
| Reconciler.FindDifference | src/utils/utils.ts:310-311 | the loop stops at the first index where the two strings differ |
| Reconciler.FirstDifferenceIsUnique | src/utils/utils.ts:310-311 | any index up to which the strings agree and at which they differ is that first difference |
| Reconciler.SpliceAtMapped | src/utils/utils.ts:294-301 | both bounds are mapped (START, END) and the value is spliced there |
| Reconciler.ApplyChangeToValue | src/utils/utils.ts:253-327 | `applyChangeToValue` computes the two-pass reconciliation: the first splice, and the auto-correction pass only when no bound lies inside a mention and the re-scan differs from the new plain text (the lemmas below say what it gives) |
| Reconciler.SpliceFromInsideMention | src/utils/utils.ts:294-301 | a splice starting strictly inside a mention keeps the value only up to the mention's first character |
| Reconciler.SpliceIntoMention | src/utils/utils.ts:294-301 | a splice ending strictly inside a mention resumes the value after the mention's last character |
| Reconciler.EditTouchingMention | src/utils/utils.ts:294-303 | an edit with a bound strictly inside a mention skips the second pass and drops that mention's whole markup: the value is kept up to the mention's first character when the start is inside, and resumes after its last character when the end is |
| Reconciler.SpliceBetweenMentions | src/utils/utils.ts:294-301 | a splice with neither bound inside a mention replaces value[a..b] by the insert, where a and b are the bounds' NULL mappings; every mention before the splice keeps its markup at its own index, and every mention after it keeps its markup, moved by the change in length |
| Reconciler.EditBetweenMentions | src/utils/utils.ts:294-306 | an edit touching no mention, whose first result already shows the new plain text, gives value[..a] + insert + value[b..] at the mapped bounds |
| Reconciler.CorrectedSpliceRebuilds | src/utils/utils.ts:309-317 | when the old and new plain texts agree up to the first difference from the re-scan and end alike after the caret, the corrected splice runs from that difference to where the unchanged tail starts, and turns the old plain text into the new one |
| Reconciler.AutoCorrectionBetweenMentions | src/utils/utils.ts:303-323 | when the re-scan differs from the new plain text and the corrected splice touches no mention, the result is the value with the corrected splice's mapped span replaced by its insert |
| Reconciler.DeleteSplice | src/utils/utils.ts:264-292 | Delete with a collapsed caret at c splices out exactly the plain-text character at c |
| Reconciler.DeleteAfterMention | src/utils/utils.ts:285-306 | Delete with the caret right after a mention's display, before a text character, removes just the character after the mention's markup, which is the character deleted from the plain text, and keeps the markup in place |
| Reconciler.NoOpSplice | src/utils/utils.ts:273-292 | an event that leaves the plain text and a collapsed caret as they were is taken for a composed character: the splice re-inserts the character before the caret over itself |
| Reconciler.NoOpRoundTrip | src/utils/utils.ts:253-327 | with the caret just after a text character, an event that leaves the plain text as it is returns the value unchanged |
| Reconciler.NoOpAfterMention | src/utils/utils.ts:273-301 | with the caret right after a mention whose display has two characters or more, the same event replaces the mention's whole markup by the display's last character |
| Reconciler.ReconciledAgreesAfterText | src/utils/utils.ts:273-301 | where `applyChangeToValue` already returns the value for an unchanged plain text, the corrected reconciliation gives the same result |
| Reconciler.EditWithoutMentions | src/utils/utils.ts:253-327 | editing a value without mentions, when the result has none either, gives exactly the edited text |
| Query.MatchTriggerSpec | src/utils/utils.ts:486-498 | the trigger match is the leftmost anchored one; capture 1 is the trigger and the query and runs to the end; the query holds no excluded character; no match exactly when no position qualifies |
| Query.DefaultMentionsMarkup | src/utils/utils.ts:570-572 | with the default template a mention's markup is `@[display](id)`, falling back to the id, when neither contains `$` |
| Query.FilterData | src/utils/utils.ts:513-520 | the loop keeps the items matching the query, in list order |
| Query.FilteredIff | src/utils/utils.ts:514-518 | an item is kept exactly when it is in the list and the query occurs in `display \|\| id` |
| Query.ProvideData | src/utils/utils.ts:506-524 | the provider always answers with a promise; for a static list it holds the filtered items |
| Query.CaptureFound | src/SuggestionsOverlay.tsx:158 | `indexOf(match[1], match.index)` finds capture 1; it is where the match put it unless the trigger starts with whitespace |
| Query.ExtractQueryPlacesTrigger | src/SuggestionsOverlay.tsx:145-167 | an extracted span lies in the window before the caret and holds the trigger followed by the query |
| Query.ComputeChange | src/MentionsTextField.tsx:189-221 | the new value is what `applyChangeToValue` gives for the event (so a no-op event right after a mention changes the markup, as recorded under Findings), and the plain text and mentions are re-derived from it |
| Query.ComputeInsertion | src/MentionsTextField.tsx:128-162 | the query's start is mapped (START); the markup made from the source's own template replaces a span as long as the query; the source's own `displayTransform` output replaces the query in the plain text; nothing when the start does not map or the source has no `displayTransform` |
| Query.SpliceMention | src/MentionsInput.tsx:314-345 | the two splices at a mapped start, with the source's own template and `displayTransform`, the optional trailing space, and the caret after the display |
| Query.InsertMentionSpec | src/MentionsTextField.tsx:132-162 | an insertion happens exactly when the source has a `displayTransform`; the markup span is as long as the query; the new plain text has the display in place of the query; the caret lands right after it |
| Query.AppendSpaceOnAdd | src/MentionsInput.tsx:322-337 | with `appendSpaceOnAdd` the markup and the display each gain one space, and the caret moves one further |
| Query.InsertWithoutMentions | src/MentionsTextField.tsx:132-145 | in a value without mentions the markup span replaced is exactly the query's plain span |
| Query.StoreCount | src/utils/utils.ts:461-463 | storing an entry replaces that key's results in the count |
| Query.Choices | src/SuggestionsOverlay.tsx:283-290 | one choice per result in the map, each taken from a stored entry |
| Query.ShiftedFocus | src/MentionsInput.tsx:100-104 | `(count + focus + delta) % count` lies in the list whenever the dividend is not negative |
| Query.ShiftedFocusWraps | src/MentionsInput.tsx:100-104 | one step down from the last entry goes to the first, and one step up from the first goes to the last |
| Query.ClampedFocusInRange | src/MentionsInput.tsx:226 | a focus past the new count moves to its last entry, and stays in the list |
| Query.AdjustSelection | src/MentionsTextField.tsx:208-219 | the selection rule of `handleChange` |
| Query.SelectionInsideMention | src/MentionsTextField.tsx:208-216 | a stored start in a mention, with the event's end past the mention's start, moves the caret to that start plus the typed data |
| Query.SelectionOutsideMentions | src/MentionsTextField.tsx:208-219 | a stored start in no mention keeps the event's selection |
| Overlay.SourceQueriesExact | src/SuggestionsOverlay.tsx:153-168 | exactly the sources whose own trigger matches get a query, each carrying what its match extracted |
| Overlay.SourceQueriesPlaced | src/SuggestionsOverlay.tsx:153-168 | each query's span holds its source's trigger followed by the query, inside the window |
| Overlay.NoQueryInsideMention | src/SuggestionsOverlay.tsx:140-143 | a caret strictly inside a mention of the mapped text starts no query |
| Overlay.SuggestionsOverlay.constructor | src/SuggestionsOverlay.tsx:74-75 | no suggestions, focus on the first entry |
| Overlay.SuggestionsOverlay.QueryDataSource | src/SuggestionsOverlay.tsx:97-128 | a synchronous array is stored under the source's index, leaving the other entries; a promise stores nothing |
| Overlay.SuggestionsOverlay.UpdateQueries | src/SuggestionsOverlay.tsx:130-169 | the effect empties the map and issues the queries of a collapsed, non-zero, mappable caret |
| Overlay.SuggestionsOverlay.AskSources | src/SuggestionsOverlay.tsx:150-168 | the loop issues, in source order, one query for each source whose trigger matches |
| Overlay.SuggestionsOverlay.ClearSuggestions | src/SuggestionsOverlay.tsx:171-174 | empty map, focus on the first entry |
| Overlay.SuggestionsOverlay.ShiftFocus | src/SuggestionsOverlay.tsx:277-281 | the focus moves by the step with JavaScript's remainder, and stays in the list |
| Overlay.SuggestionsOverlay.SelectFocused | src/SuggestionsOverlay.tsx:283-290 | the focused entry is handed on and the map is cleared; a focus outside the list changes nothing |
| Overlay.SuggestionsOverlay.HandleKeyDown | src/SuggestionsOverlay.tsx:292-322 | Escape clears; Down and Up move the focus; Return and Tab hand on the focused entry; only those keys are consumed, and only while the listener is mounted |
| TextField.MentionsTextField.constructor | src/MentionsTextField.tsx:87 | no selection is stored |
| TextField.MentionsTextField.AddMention | src/MentionsTextField.tsx:118-170 | the insertion's change is reported and the caret is put after the display; nothing happens when the start does not map |
| TextField.MentionsTextField.HandleChange | src/MentionsTextField.tsx:172-225 | the change carries the edit into the markup by `applyChangeToValue`, with the stored selection where there is one, and the selection follows the mention rule |
| Input.NoQueryInsideMention | src/MentionsInput.tsx:262-267 | a caret strictly inside a mention of the markup starts no query |
| Input.InputQueriesShared | src/MentionsInput.tsx:275-292 | either no child is queried, or every child is, with the same span holding the trigger and the query inside the window |
| Input.MentionsInput.constructor | src/MentionsInput.tsx:79-96 | the first generation, no suggestions, no selection |
| Input.MentionsInput.UpdateSuggestions | src/MentionsInput.tsx:196-227 | results of an earlier generation are dropped; current ones are stored under their child's index, and the focus is clamped |
| Input.MentionsInput.QueryData | src/MentionsInput.tsx:229-252 | a synchronous array is passed on under the current generation; a promise passes nothing |
| Input.MentionsInput.UpdateMentionsQueries | src/MentionsInput.tsx:254-293 | a new generation, an empty map, and the queries of every child unless the caret maps into a mention |
| Input.MentionsInput.AskChildren | src/MentionsInput.tsx:275-292 | the loop queries every child with the window's match of the component's one trigger |
| Input.MentionsInput.ClearSuggestions | src/MentionsInput.tsx:295-300 | a new generation, an empty map, focus on the first entry |
| Input.MentionsInput.ShiftFocus | src/MentionsInput.tsx:100-104 | the focus wraps around the list |
| Input.MentionsInput.AddMention | src/MentionsInput.tsx:302-355 | as in the text field, with the trailing space of `appendSpaceOnAdd`; the selection is marked as moved and the suggestions are cleared |
| Input.MentionsInput.SelectFocused | src/MentionsInput.tsx:106-115 | the focused entry is inserted: the change reported carries the new value, its plain text and its mentions, the caret is stored after the mention and the suggestions are cleared; the focus returns to the first entry; when the query's start does not map nothing is inserted and the selection is kept; when the insertion throws (a mapped start and no `displayTransform`), nothing changes, not even the focus |
| Input.MentionsInput.HandleKeyDown | src/MentionsInput.tsx:117-152 | keys are handed to `onKeyDown` exactly while the overlay is hidden or empty; otherwise Escape clears, Down and Up move the focus (all three keep the selection), Return and Tab insert the focused entry with the same outcome as `SelectFocused`; the key is intercepted exactly when it is one of those and the insertion does not throw; any other key goes nowhere |
| Input.MentionsInput.HandleChange | src/MentionsInput.tsx:357-418 | as in the text field (the value is `applyChangeToValue`'s), storing whether the selection moved because of a mention; during composition the queries are refreshed |
| Input.MentionsInput.HandleSelect | src/MentionsInput.tsx:420-441 | the selection is stored and nothing else changes |

## Left out

- Regular expressions: the engine's `RegExp` objects are not modelled.
  - Each derived expression is modelled by the pattern it denotes.
  - A source's explicit `regex` override, with `verifyCapturingGroups`, is not modelled.
  - A `RegExp` trigger is not modelled; triggers are strings.
- Grammar.Compile refuses a template whose two placeholders overlap (such as
  `__id__display__`). The source builds a mismatched expression there.
- Grammar.Compile, Scanner.ValidSources: a template without placeholders has
  no grammar, and every member outside Scanner's scan requires all templates
  to compile. Only Scanner.IterateMentionsMarkup (with Scanner.ScanAny) takes
  such templates. A single source `abc` gives the value back as one text run.
  Sources `[abc, default]` make `findIndexOfCapturingGroup` throw on the first
  mention. Plain text, mentions, index mapping, the reconciler and the
  components are not modelled for these sources.
- `removeAccents` and `toLowerCase` are parameters (`TextOps`). Unicode
  normalisation and case mapping are not modelled.
- `readConfigFromChildren` is not part of this model. The configured sources
  are given as a sequence.
- `isNumber` and the non-number branch of `mapPlainTextIndex`, which returns
  its argument unchanged, are left out. Every caller passes a number.
- React is not modelled: rendering, batching of state updates, effects'
  dependency lists and refs to DOM elements.
  - `onChange`, `onAdd` and `onSelect` are return values of the methods.
  - The asynchronous resolution of provider promises is not modelled.
    `QueryDataSource` and `QueryData` take the provider's answer as a
    parameter.
- Out of scope: `handleBlur`, mouse handling, scrolling the focused entry
  into view, the overlay's position, and `setSelection` on the DOM element.
- Behaviour modelled as written:
  - `getDataProvider` always returns an `async` function, so no answer is
    ever stored synchronously.
  - `MentionsInput` matches every child with the component's own
    `props.trigger`.
  - Its `handleSelect` tests the `isComposing` ref object, which is always
    truthy, so the handler stores the selection and returns.
  - The overlay maps the caret over the plain text rather than the markup.
  - The overlay's `!positionInValue` also rejects a mapped position of 0.
- Positions count Unicode scalar values. The source's string positions count
  UTF-16 code units, so with characters outside the Basic Multilingual Plane
  (an emoji, say) every index after one differs: 2 units in the source, 1
  character here.
- `ComputeInsertion`, `SpliceMention`: an absent `markup` is modelled as the
  empty template and inserts an empty markup. `MentionsInput`'s `addMention`
  reads the child's own props, where an absent `markup` makes
  `makeMentionsMarkup` throw.
- `ComputeInsertion`, `SpliceMention`: the source focuses the input element
  before calling `displayTransform`; focus is not modelled, so an absent
  transform simply inserts nothing. The exception itself is modelled in
  `MentionsInput`: `SelectFocused` reports it and changes nothing, and
  `HandleKeyDown` then leaves the key unintercepted.
- `SuggestionsOverlay.SelectFocused`, `SuggestionsOverlay.HandleKeyDown`: in
  the text field the overlay hands the entry to `MentionsTextField.AddMention`
  and then clears the suggestions and consumes the key. The model does not
  carry the exception of an absent `displayTransform` across that call, so it
  clears and consumes where the source leaves both undone. The text field's
  sources, and whether they have a `displayTransform`, come from
  `readConfigFromChildren`, which is not part of this model.
- The text field's `handleSelect` and `handleBlur` are not part of this
  model. The stored selection is a field that `AddMention` and `HandleChange`
  set.
- `selectionAfterPaste` and the clipboard handlers of `MentionsInput` are not
  part of this model.

## Findings

| source | as written | input that shows it | evidently intended | confidence | as-written member | corrected member |
|---|---|---|---|---|---|---|
| src/utils/utils.ts:273-301 | a change event that leaves the plain text and a collapsed caret c as they were is taken for a composed character, so the splice runs from c - 1 to c; when c - 1 lies strictly inside a mention's display the splice touches the mention and its whole markup is replaced by one display character | value `@[Ann](a) x`, plain text `Ann x`, caret at 3: the result is `n x` | an event that leaves the plain text as it is leaves the markup as it is | not executed | Reconciler.NoOpAfterMention | Reconciler.Reconciled |

The components' handlers (`ComputeChange` and both `HandleChange` methods)
keep calling `applyChangeToValue` as the source does, so they show the
behaviour as written. `Reconciled` is the corrected reconciliation, and
`ReconciledAgreesAfterText` shows it agrees with `applyChangeToValue`
wherever the latter already keeps a no-op event a no-op.
