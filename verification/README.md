# xml-formater: blank-line vault, post-processing and options, in Dafny

This project models the text-level core of the `xml-formater` editor extension,
which reformats XML documents. The model covers three pieces.

- **The blank-line vault** (`blankLineProcessor.ts`). Before the XML library
  reformats a document, `preserveBlankLinesAsComments` replaces every maximal
  run of whitespace-only lines with one marker line `<!--__BLANK_LINES_k__-->`.
  Afterwards `restoreBlankLinesFromComments` does three things:
  - it hides each comment behind a `__TEMP_COMMENT_i__` placeholder;
  - it drops the whitespace-only lines the library left and puts the comments back;
  - it expands each marker to `min(k, maximumBlankLines)` empty lines, or
    deletes the marker when the limit is 0.
- **Post-processing and helpers** of the formatter class (`xmlFormatter.ts`):
  - the rewrite of a leading `<?xml …?>` declaration;
  - the collapse of `\n\s*\n`, the per-line `trimEnd` and the final newline;
  - the indent unit, the `isXmlContent` test, and the constructor's and
    `getDefaultOptions`'s defaults.
- **Option sources** (`config.ts`). `mapRcConfigToOptions` maps an
  `.xmlformatterrc` object to options. `getFormatterOptions` merges the editor
  settings over their defaults, and then the rc file over that.

Text is `seq<char>`, and lines come from an explicit `Split`/`Join` pair that
behaves like `split('\n')` and `join('\n')`. "Blank" means every character is
JavaScript whitespace: the `WhiteSpace` and `LineTerminator` sets that
`trim()`, `trimEnd()` and the regex class `\s` all use. JavaScript objects with
optional keys are datatypes with `Option` fields. Object spread `{...a, ...b}`
is `Spread`/`Apply`, and these are proved equal to right-biased map union.

Modules:
- `Wrappers` holds `Option` and `Result`.
- `Strings` holds trimming, `startsWith`, `includes`, first-occurrence
  `replace`, `repeat`, and whitespace removal.
- `Lines` holds split, join and the blank-line filter.
- `Digits` holds decimal numerals.
- `BlankLines` holds the first pass.
- `CommentVault` holds the comment hiding and the filter of the second pass.
- `Restore` holds marker expansion and the round trip.
- `PostProcess` holds `postProcessFormatting`.
- `Options`, `Formatter` and `Config` hold the option records.

## Model

| member | source | states |
|---|---|---|
| Lines.Split | src/formatters/processors/blankLineProcessor.ts:2 | `split('\n')` yields at least one piece, no piece holds a line break, and joining the pieces gives the text back |
| Lines.SplitJoin | src/formatters/processors/blankLineProcessor.ts:25 | splitting a join of break-free lines gives the same lines back |
| Digits.ParseShow | src/formatters/processors/blankLineProcessor.ts:17 | reading back the printed run count with `parseInt(…, 10)` gives the count (line 74 reads it) |
| Digits.ShowInjective | src/formatters/processors/blankLineProcessor.ts:17 | different run counts print as different numerals |
| BlankLines.MarkerRoundTrip | src/formatters/processors/blankLineProcessor.ts:59 | a marker line is recognised with any whitespace before or after it, and carries back exactly the count written into it |
| BlankLines.MarkerNotBlank | src/formatters/processors/blankLineProcessor.ts:17 | a marker line is never whitespace-only, so it cannot be taken for part of a run |
| BlankLines.ScanBlankRun | src/formatters/processors/blankLineProcessor.ts:9-14 | the inner loop stops at the end of the maximal run of whitespace-only lines that starts at `i` |
| BlankLines.PreserveLinesLoop | src/formatters/processors/blankLineProcessor.ts:5-23 | the source's loop over lines produces the run-grouping definition: one marker per maximal blank run, every other line copied |
| BlankLines.PreserveBlankLinesLoop | src/formatters/processors/blankLineProcessor.ts:1-26 | split, loop and join compute `preserveBlankLinesAsComments` |
| BlankLines.SegmentsShape | src/formatters/processors/blankLineProcessor.ts:8-22 | kept lines are non-blank lines of the input, and every run has length at least 1 |
| BlankLines.SegmentsRunsApart | src/formatters/processors/blankLineProcessor.ts:8-19 | runs are maximal: no two runs are next to each other |
| BlankLines.SegmentsCoverInput | src/formatters/processors/blankLineProcessor.ts:9-18 | each input line is counted exactly once: one per kept line plus `k` per run of `k` |
| BlankLines.SegmentsKeepText | src/formatters/processors/blankLineProcessor.ts:20-22 | the kept lines are exactly the input's non-blank lines, in order |
| BlankLines.PreserveNoBlank | src/formatters/processors/blankLineProcessor.ts:2-25 | no line of the output is whitespace-only |
| BlankLines.PreserveLineOrigin | src/formatters/processors/blankLineProcessor.ts:2-25 | every output line is an input line or a marker |
| BlankLines.PreserveNoAdjacentMarkers | src/formatters/processors/blankLineProcessor.ts:2-25 | no two marker lines are adjacent, provided no input line already looks like a marker |
| BlankLines.PreserveKeepsText | src/formatters/processors/blankLineProcessor.ts:20-22 | deleting the marker lines from the output yields exactly the input's non-blank lines, provided no input line already looks like a marker |
| BlankLines.PreserveLineCount | src/formatters/processors/blankLineProcessor.ts:2-25 | the output's line count is the number of non-blank lines plus the number of runs |
| BlankLines.PreserveEmpty | src/formatters/processors/blankLineProcessor.ts:2-25 | the empty text maps to the single marker `<!--__BLANK_LINES_1__-->` |
| CommentVault.TokensFill | src/formatters/processors/blankLineProcessor.ts:35 | the lazy comment scan loses nothing: its tokens spell the text |
| CommentVault.TokensComments | src/formatters/processors/blankLineProcessor.ts:35 | each comment token runs from `<!--` to the first `-->` after it |
| CommentVault.FirstOccurrenceOf | src/formatters/processors/blankLineProcessor.ts:49 | a string `replace` of a placeholder hits the intended occurrence when the text before it holds no placeholder tag |
| CommentVault.RestoreCorrect | src/formatters/processors/blankLineProcessor.ts:47-50 | putting the comments back in numbering order restores every comment exactly, on text free of the placeholder tag |
| CommentVault.VaultStageCorrect | src/formatters/processors/blankLineProcessor.ts:31-50 | on text free of the placeholder tag, hiding comments, filtering lines and restoring removes exactly the whitespace-only lines outside comments, and leaves comment text as it was |
| CommentVault.NoBlankLineKeepsAll | src/formatters/processors/blankLineProcessor.ts:43-45 | a text with no whitespace-only line passes through the filter unchanged |
| CommentVault.VaultStageNoBlankLines | src/formatters/processors/blankLineProcessor.ts:43-45 | when comments fit on one line, no whitespace-only line survives the filter, unless the result is empty |
| Restore.ExpandLoop | src/formatters/processors/blankLineProcessor.ts:67-85 | the source's loop equals the line-by-line expansion |
| Restore.ExpandLineShape | src/formatters/processors/blankLineProcessor.ts:70-82 | a non-marker line is kept as it is, and a marker yields only empty lines |
| Restore.ExpandNonPositive | src/formatters/processors/blankLineProcessor.ts:54-65 | with a limit of 0 or less, expansion is the same as deleting the marker lines, so the two branches agree |
| Restore.ExpandKeepsText | src/formatters/processors/blankLineProcessor.ts:67-85 | expansion keeps every non-marker line in order and adds only empty lines: read in order, each output line is the next non-marker line or `""` |
| Restore.RestoreZeroNoBlank | src/formatters/processors/blankLineProcessor.ts:43-65 | with limit 0 and one-line comments, no whitespace-only line remains, unless the result is the single empty line |
| Restore.RestoreBlanksFromMarkers | src/formatters/processors/blankLineProcessor.ts:43-85 | with one-line comments, the number of whitespace-only lines in the result is the sum of `min(k, n)` over the markers |
| Restore.RoundTrip | src/formatters/processors/blankLineProcessor.ts:1-86 | restoring a preserved text replaces each maximal blank run of length `k` with `min(k, n)` empty lines and changes nothing else |
| Restore.CapRunsBound | src/formatters/processors/blankLineProcessor.ts:75 | after a round trip no run of empty lines is longer than the limit |
| Restore.CapRunsZero | src/formatters/processors/blankLineProcessor.ts:54-65 | with limit 0 the round trip keeps exactly the non-blank lines |
| Restore.CapRunsKeepAll | src/formatters/processors/blankLineProcessor.ts:75-79 | when no run exceeds the limit, every blank line comes back (emptied) |
| PostProcess.SkipBlankLinesSpec | src/formatters/xmlFormatter.ts:95 | the greedy `\s*\n` after a line break consumes whitespace up to the last line break of the whitespace run, and no further |
| PostProcess.CollapseLines | src/formatters/xmlFormatter.ts:95 | on lines, the collapse removes every whitespace-only line except the first and the last |
| PostProcess.EnsureNewline | src/formatters/xmlFormatter.ts:101-103 | the result ends with a line break and extends the input by at most that one character |
| PostProcess.TidyAsLines | src/formatters/xmlFormatter.ts:94-103 | collapse, trim and final newline equal the line-level transform |
| PostProcess.TidyShape | src/formatters/xmlFormatter.ts:94-103 | the output ends with a line break, has no line ending in whitespace, and never contains a line break, optional whitespace and a line break |
| PostProcess.TidyKeepsText | src/formatters/xmlFormatter.ts:94-103 | only whitespace changes: with all whitespace deleted, input and output are equal |
| PostProcess.TidyFixedPoints | src/formatters/xmlFormatter.ts:94-103 | the passes are idempotent, and a text is left unchanged exactly when its lines already have the output's shape |
| PostProcess.TidyStart | src/formatters/xmlFormatter.ts:94-103 | the passes never create a prefix without line breaks that the input lacked |
| PostProcess.DeclEndSound | src/formatters/xmlFormatter.ts:90 | when the declaration pattern matches, the text is `<?xml`, attributes without `>`, `?>` and the rest |
| PostProcess.DeclEndComplete | src/formatters/xmlFormatter.ts:90 | every text of that shape is matched, with the match ending at the `?>` |
| PostProcess.DeclRewriteOfMatch | src/formatters/xmlFormatter.ts:90-92 | on a matched declaration, the code as written yields `<?xml` + trimmed attributes + `>`, and the corrected rewrite yields `<?xml` + space + trimmed attributes + `?>` |
| PostProcess.DeclRewriteLossy | src/formatters/xmlFormatter.ts:90-92 | the rewrite as written changes more than whitespace whenever it applies |
| PostProcess.DeclRewriteExample | src/formatters/xmlFormatter.ts:90-92 | `<?xml version="1.0"?>` becomes `<?xmlversion="1.0">` as written, and is left as it is by the corrected rewrite |
| PostProcess.DeclRewriteCorrectedKeepsText | src/formatters/xmlFormatter.ts:90-92 | the corrected rewrite changes only whitespace |
| PostProcess.DeclRewriteCorrectedIdempotent | src/formatters/xmlFormatter.ts:90-92 | the corrected rewrite is idempotent |
| PostProcess.PostProcessFormatting | src/formatters/xmlFormatter.ts:86-106 | the post-processed text always ends with a line break |
| PostProcess.PostProcessNoDecl | src/formatters/xmlFormatter.ts:86-106 | for text not starting with `<?xml`, post-processing changes only whitespace and is idempotent |
| PostProcess.PostProcessCorrectedKeepsText | src/formatters/xmlFormatter.ts:86-106 | with the corrected declaration rewrite, post-processing changes only whitespace on every input |
| Options.SpreadIsUnion | src/utils/config.ts:141 | spreading one options object over another is the right-biased union of their keys and values |
| Options.AsMapInjective | src/formatters/types.ts:1-12 | an options record is determined by its present keys and their values |
| Options.ApplyIsSpread | src/utils/config.ts:141 | spreading a partial record over a full one is the union of the full record's keys with the partial's |
| Options.ApplyCompose | src/utils/config.ts:124-141 | spreading two layers in turn is the same as spreading their merge |
| Formatter.GetDefaultOptions | src/formatters/xmlFormatter.ts:141-150 | the defaults set exactly six keys: indent size and type, line length, preserve and format attributes, self-closing tags |
| Formatter.Construct | src/formatters/xmlFormatter.ts:15-25 | the constructed options are the defaults with every supplied key overriding its default |
| Formatter.ConstructKeys | src/formatters/xmlFormatter.ts:15-25 | a formatter built with no options holds exactly the default options, and indent size and type are always present |
| Formatter.ConstructFull | src/formatters/xmlFormatter.ts:15-25 | a formatter built from a full record keeps every value of it |
| Formatter.IndentString | src/formatters/xmlFormatter.ts:76-81 | one tab for tab indentation, whatever the size; otherwise exactly `indentSize` spaces; a RangeError for a negative size |
| Formatter.IndentStringDefault | src/formatters/xmlFormatter.ts:76-81 | with no options the indent unit is two spaces |
| Formatter.IndentStringInverse | src/formatters/xmlFormatter.ts:76-81 | with space indentation, two indent units are equal exactly when the sizes are |
| Formatter.MatchTag | src/formatters/xmlFormatter.ts:134 | a one-pass scan finds a match of `<[a-zA-Z][^>]*>` exactly when one exists |
| Formatter.IsXmlContent | src/formatters/xmlFormatter.ts:130-136 | true exactly when the trimmed text starts with `<` and contains `<?xml` or an element-like tag |
| Formatter.LooksLikeXmlDeclared | src/test/validation/smartValidation.test.ts:64-67 | a document with a declaration is accepted |
| Formatter.LooksLikeXmlElement | src/test/validation/smartValidation.test.ts:69-72 | a document without a declaration is accepted through the tag pattern |
| Formatter.LooksLikeXmlRejects | src/test/validation/smartValidation.test.ts:74-82 | plain text and the empty string are refused |
| Config.MapRcConfigToOptions | src/utils/config.ts:80-112 | each option is set exactly when its rc key is present: `tabSize` becomes `indentSize` and `alignAttributes` becomes `formatAttributes` with their values, the five same-name keys are copied, `useTabs` chooses tabs, `'selfClosing'` chooses self-closing tags, and `preserveAttributes` is never set |
| Config.RcRoundTrip | src/utils/config.ts:80-112 | the mapping loses only `keepCDATA`: mapping back recovers every other rc key |
| Config.OptionsRoundTrip | src/utils/config.ts:80-112 | every option except `preserveAttributes` can be set from an rc file, and mapping an options record to rc and back is the identity |
| Config.RcNeutral | src/utils/config.ts:80-112 | an empty rc object maps to no options, and `keepCDATA` has no effect |
| Config.GetFormatterOptions | src/utils/config.ts:120-145 | without an rc file the result is the settings over their defaults, and `preserveAttributes` comes only from the settings |
| Config.OptionsHierarchy | src/utils/config.ts:120-145 | the result is defaults, then settings, then rc file, each later layer winning on the keys it holds |
| Config.OptionsPrecedence | src/utils/config.ts:124-144 | for every key: an rc key always wins, a setting wins over its default only where the rc is silent, a key set by neither keeps its default, and untouched settings give the defaults |
| Config.DefaultsAgree | src/utils/config.ts:124-135 | the formatter's own six defaults agree with the settings defaults on those keys |
| Config.OptionsReachFormatter | src/formatters/xmlFormatter.ts:15-25 | the merged options reach a formatter unchanged, so its constructor defaults play no part |

## Left out

- The `fast-xml-parser` round trip in `formatXml` and `validateXml`
  (`xmlFormatter.ts:30-71,111-125`) is a foreign library and is not modelled.
  `extension.ts` is editor plumbing and is not part of this model.
- Reading the rc file is left out: `findRcFile`, `loadRcConfig` with its
  `JSON.parse` and cache, and `clearRcCache`. So are `getFormatOnSave`,
  `getOdooSpecific` and the other settings accessors. The editor settings enter
  `GetFormatterOptions` as a parameter, and the parsed rc object enters as an
  `Option`.
- JSON values of the wrong type (a `null` `tabSize`, a string `useTabs`, an
  `emptyElementHandling` other than the two declared strings) are outside the
  declared types and are not modelled. The same holds for settings of the wrong
  type and for keys passed explicitly as `undefined`: an absent key is `None`.
- Numbers are integers. `' '.repeat` with a fractional or infinite size, and
  `parseInt` of a numeral too long for a double, are not modelled.
- `String.replace` treats `$` in the replacement specially. Restoration is
  modelled as a literal first-occurrence substitution, so comments containing
  `$&` or similar patterns are outside the model.
- CommentVault.RestoreCorrect: stated only for text that holds no
  `__TEMP_COMMENT_` tag (`NoTag`), because the source's placeholders can
  collide with such text.
- Restore.RoundTrip: stated for text with no placeholder tag and no line that
  already looks like a blank-line marker. This is weaker than "no `<!--` in
  the text" in one direction and stronger in the other.
- CommentVault.VaultStageCorrect: stated only for text that holds no
  `__TEMP_COMMENT_` tag (`NoTag`). On other text a literal tag can take a
  comment's place when the comments are put back.
- CommentVault.VaultStageNoBlankLines: stated for comments that fit on one
  line, because a comment spanning a blank line keeps that blank line.
- Restore.RestoreZeroNoBlank: stated for one-line comments, for the same reason.
- Restore.RestoreBlanksFromMarkers: stated for one-line comments, for the same
  reason, and only when the filtered text is not empty. It does not count the
  whitespace-only lines that survive inside multi-line comments.
- The declaration rewrite is modelled on the regex `^<\?xml([^>]*)\?>` as
  given. Properties about the whole post-processing on declared text use the
  corrected rewrite, because the rewrite as written is not whitespace-only.

## Findings

| source | as written | input that shows it | evidently intended | confidence | as-written member | corrected member |
|---|---|---|---|---|---|---|
| src/formatters/xmlFormatter.ts:90-92 | the declaration is rewritten to `` `<?xml${attrs.trim()}>` ``, which drops the space after `<?xml` and the closing `?` | `<?xml version="1.0"?>` becomes `<?xmlversion="1.0">`, which is no longer an XML declaration | normalise only the whitespace: `<?xml version="1.0"?>`, as src/test/odoo/attributeXpath.test.ts:36 and src/test/odoo/complexAttrs.test.ts:85 expect | not executed | PostProcess.DeclRewriteLossy | PostProcess.DeclRewriteCorrectedKeepsText |
