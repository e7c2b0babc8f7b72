# compiloor report assembly, modelled in Dafny

compiloor compiles a security-audit report out of a directory of Markdown
findings. Each file `[<SIG>-<NN>].md` sits under a severity folder signature
(`GAS`, `QA`, `L`, `M`, `H`, `C`).

This project models the deterministic core of that pipeline:

- **Severities, statuses and identifiers.** The severity, status and
  finding-identifier tables, and the parsing of `[H-01]`-style identifiers
  (`Typings`).
- **The findings store.** Zero-padded numbering, file naming and counting,
  loading every finding of every severity, merging the config sections, and
  naming reports (`EnvironmentUtils`). The store's directory is a listing
  (`seq<string>`) and its file contents are a `map`.
- **Directory setup.** The "is the directory initialised" check, instantiating
  the add-finding template, and the "findings directory not empty" check
  (`EnvironmentSetup`).
- **The finding parser.** Header line, identifier, number, title, severity,
  resolution-status marker and the rendered anchor `div` (`FindingParser`).
- **Code-block handling.** The code-line splitter `split_line_if_too_long` and
  the string side of `block_code` and `create_html_from_markdown`
  (`Markdown`).
- **The findings legend.** Per-severity subsection indexes and
  `{{[...]_page}}` placeholders (`Legend`).
- **The four dynamic tables.** Title logic, information rows, count rows,
  summary links and the table registry (`Tables`).
- **Grouping findings.** Grouping by descending severity, the section-heading
  list and the per-severity blocks (`Report`).
- **The `ReportCustomizer` class.** Its `report` string is rewritten in place
  by a fixed sequence of replace-all steps (`Customizer`).
- **The page-number stage.** It runs over a document whose pages are strings:
  blank-page removal, footer numbering, resolving headings to pages, and
  rewriting the page placeholders (`Indexing`).
- **A cross-module round trip.** The template written by `add-finding` parses
  back to a known finding record (`TemplateRoundTrip`).

Python's `str.replace`, `str.split`, `str.join`, `str.strip` and `int()` are
modelled in `Strings` (`ReplaceAll`, `Split`, `Join`, `Strip`, `PythonInt`).
The constants of `compiloor/constants/*.py` are transcribed in `Constants`.

Errors follow the program:

- `Exit(reason)` stands for a logger error followed by `exit(1)`;
- `Raise(exception)` stands for a Python exception (`IndexError`, `KeyError`,
  `ValueError`, `FileNotFoundError`).

External renderers are function-typed parameters: mistune and pygments are
`render`/`highlight`, `tabulate` is `tabulate`, and the PDF text extraction is
`extract`.

## Model

| member | source | states |
|---|---|---|
| Typings.Rank | compiloor/services/typings/finding.py:6-16 | severities are ranked GAS=1 … CRITICAL=6, each at position rank-1 of the ascending severity list |
| Typings.SeverityString | compiloor/services/typings/finding.py:18-19 | `str(severity)` is a single decimal digit whose value is the severity's rank |
| Typings.FolderSig | compiloor/services/typings/finding.py:24-33 | every folder signature is non-empty and free of `-`, `[`, `]`, `.`, space and backtick |
| Typings.SeverityOfFolderSig | compiloor/services/typings/finding.py:66-84 | looking up a signature succeeds with s exactly when s's signature is that string; any other string fails |
| Typings.FolderSigRoundTrip | compiloor/services/typings/finding.py:24-33 | casting a severity to its folder signature and back yields the same severity |
| Typings.FolderSigInjective | compiloor/services/typings/finding.py:24-33 | distinct severities have distinct folder signatures |
| Typings.DisplayCase | compiloor/services/typings/finding.py:35-44 | the display label is non-empty and upper-cases to the severity's name |
| Typings.DisplayCaseInjective | compiloor/services/typings/finding.py:35-44 | distinct severities have distinct display labels |
| Typings.Annotation | compiloor/services/typings/finding.py:46-64 | each lower-case CLI annotation upper-cases to the severity's name |
| Typings.SeverityOfAnnotation | compiloor/services/typings/finding.py:46-64 | an annotation casts to s exactly when it is s's annotation; anything else fails |
| Typings.StatusText | compiloor/services/typings/finding.py:121-129 | every status string is non-empty and has no surrounding whitespace |
| Typings.StatusOfText | compiloor/services/typings/finding.py:121-129 | a text names status st exactly when it equals st's status string |
| Typings.DeleteBrackets | compiloor/services/typings/finding.py:97 | the result holds no bracket, and a bracket-free text is unchanged |
| Typings.DeleteBracketsAround | compiloor/services/typings/finding.py:97 | deleting the brackets of `[id]` yields `id` for a bracket-free id |
| Typings.ParseIdentifier | compiloor/services/typings/finding.py:95-119 | exits with the dash-count error exactly when the bracket-free text does not hold exactly one `-`; on success the identifier's `str()` is the bracket-free text and its index is non-negative |
| Typings.ParseParts | compiloor/services/typings/finding.py:103-116 | a successful parse has the severity whose folder signature is the part before `-`; an unknown signature raises `ValueError` naming it; a known signature with a non-digit index exits with the invalid-index error; an all-digit index parses exactly when it is neither empty nor `0`; failures here are never the dash-count exit |
| Typings.ParseIdentifierOfParts | compiloor/services/typings/finding.py:99-103 | with one dash, parsing splits the text into signature and index at that dash |
| Typings.NewFindingIdentifier | compiloor/services/typings/finding.py:95-116 | the constructor's staged reassignment and digit-checking loop compute exactly the parse specification |
| Typings.ParseCanonical | compiloor/services/typings/finding.py:103-116 | `<SIG>-<digits>` and `[<SIG>-<digits>]`, for non-empty digits other than a lone `0`, parse to that severity and the digits' value |
| Typings.ParseEmptyIndexFails | compiloor/services/typings/finding.py:116 | index `0` (emptied by the leading-zero drop) and the empty index both raise `ValueError` |
| Typings.ParseTwoDashes | compiloor/services/typings/finding.py:99-101 | a text with two dashes exits with the dash-count error |
| EnvironmentUtils.FsSigIndex | compiloor/services/environment/utils.py:65-70 | a non-negative index is written as at least two decimal digits that read back to the index; below 100 exactly two; from 10 on without a leading zero |
| EnvironmentUtils.FsSigIndexInjective | compiloor/services/environment/utils.py:65-70 | distinct indexes get distinct padded strings |
| EnvironmentUtils.FindingFileName | compiloor/services/environment/utils.py:50 | finding file names start with `[<SIG>-` and end with `].md` |
| EnvironmentUtils.FindingFileNameInjective | compiloor/services/environment/utils.py:50 | two findings share a file name only when severity and index agree |
| EnvironmentUtils.ReadFinding | compiloor/services/environment/utils.py:45-50 | reading succeeds exactly when the named file exists and returns its content; otherwise it raises `FileNotFoundError` for that name |
| EnvironmentUtils.CurrentFindingAmount | compiloor/services/environment/utils.py:96-106 | the count is at most the listing length and is zero exactly when no entry starts with `[<SIG>` and ends with `.md` |
| EnvironmentUtils.CurrentFindingAmountAppend | compiloor/services/environment/utils.py:100-106 | adding one entry adds one to the count when it counts for the severity and nothing otherwise |
| EnvironmentUtils.CountsForFindingFile | compiloor/services/environment/utils.py:100-106 | a finding file of severity t counts for severity s exactly when s = t |
| EnvironmentUtils.AddedFindingFileCounts | compiloor/services/environment/utils.py:100-106 | a new file of severity t raises t's count by one and leaves every other count unchanged |
| EnvironmentUtils.ReadSeverityFindings | compiloor/services/environment/utils.py:122-128 | the reading loop succeeds exactly when files 1..count exist; entry i is the content of file i+1; a failure names a missing file |
| EnvironmentUtils.GetFindingFragments | compiloor/services/environment/utils.py:109-132 | succeeds exactly when every counted file exists; severities are visited in ascending rank; each gets its count and its contents in file order; the total is the sum of the counts |
| EnvironmentUtils.ConfigOf | compiloor/services/environment/utils.py:26-34 | the config read from JSON has exactly the keys of its members |
| EnvironmentUtils.MergeSectionsLookup | compiloor/services/environment/utils.py:35-38 | after merging, a key equal to some section file's name minus `.md` holds the last such file's content; every other key keeps its presence and value; existing keys keep their order |
| EnvironmentUtils.ReadConfig | compiloor/services/environment/utils.py:26-42 | the section-merging loop computes the merge specification |
| EnvironmentUtils.WrapInTag | compiloor/services/environment/utils.py:60-62 | with a non-empty tag the content is wrapped as `<tag>content</tag>`; otherwise it is unchanged |
| EnvironmentUtils.ReadFile | compiloor/services/environment/utils.py:53-62 | reading succeeds exactly when the file exists and returns its content, wrapped when a tag is given |
| EnvironmentUtils.ReportIndex | compiloor/services/environment/utils.py:140-154 | the report number is the given index unless it is missing or 0, when it is the reports-directory entry count |
| EnvironmentUtils.ReportName | compiloor/services/environment/utils.py:148-154 | the report path is the absolute reports directory + `/report-` + the padded report number + `.pdf` |
| EnvironmentUtils.ReportNameInjective | compiloor/services/environment/utils.py:148-154 | distinct explicit indexes name distinct reports |
| EnvironmentUtils.FindingFileNameParses | compiloor/services/environment/utils.py:50 | the identifier inside a created file name parses back to its severity and index |
| EnvironmentSetup.CheckInitializedAsWritten | compiloor/services/environment/setup.py:19-22 | as written: passes exactly when forced or when the actual state equals the expected one; on failure the message follows the expected flag |
| EnvironmentSetup.CheckInitializedMessageInverted | compiloor/services/environment/setup.py:19-22 | as written, the failing check reports the opposite of the directory's actual state |
| EnvironmentSetup.CheckInitialized | compiloor/services/environment/setup.py:19-25 | passes exactly when forced or when the actual state equals the expected one; on failure the message describes the actual state |
| EnvironmentSetup.CheckInitializedAgrees | compiloor/services/environment/setup.py:19-22 | the corrected check passes and fails on the same inputs as the program and differs only in the message |
| EnvironmentSetup.FilledTemplate | compiloor/services/environment/setup.py:62-63 | substituting a folder signature and then an all-digit index into the base template yields the template instantiated with both, the status placeholder untouched |
| EnvironmentSetup.FillFindingTemplate | compiloor/services/environment/setup.py:55-63 | the successive replacements yield the template instantiated with that signature and index |
| EnvironmentSetup.AddFindingTemplate | compiloor/services/environment/setup.py:49-70 | the new file is named with the severity's count + 1, and the same signature and index are substituted into its content |
| EnvironmentSetup.AddFindingExtendsNumbering | compiloor/services/environment/setup.py:59-65 | with files 1..n of a severity present, the new name is fresh and raises that severity's count by exactly one |
| EnvironmentSetup.AddFindingAfterGapOverwrites | compiloor/services/environment/setup.py:59-65 | after a lower-numbered file is deleted, the computed name equals an existing file |
| EnvironmentSetup.RemoveFirst | compiloor/services/environment/setup.py:78 | removing one occurrence takes exactly that element out of the listing's multiset |
| EnvironmentSetup.FindingsDirectoryNotEmpty | compiloor/services/environment/setup.py:73-82 | passes exactly when something other than one `.DS_Store` entry remains; otherwise it exits with the empty-directory error |
| FindingParser.FirstRow | compiloor/services/parser/finding.py:26-27 | the header line is the prefix of the fragment before its first newline |
| FindingParser.ParseIdNumber | compiloor/services/parser/finding.py:44-47 | the severity is the one whose folder signature is the upper-cased stripped part before `-`; an id without `-` raises `IndexError` |
| FindingParser.RowPieces | compiloor/services/parser/finding.py:33-41 | the line splits at its first `]` into a bracket-free part before and the start of the rest |
| FindingParser.IdOfPiece | compiloor/services/parser/finding.py:43 | the id fails exactly when the part before `]` has no `[`; the id itself holds no `[` |
| FindingParser.ParseHeader | compiloor/services/parser/finding.py:29-47 | the header exits with the invalid-fragment error exactly when the line lacks `[` or `]`; a parsed id holds no brackets and the title holds no `]` |
| FindingParser.HeaderOfId | compiloor/services/parser/finding.py:33-47 | a line `<p>[<sig>-<digits>]<title>` parses to the id `<sig>-<digits>`, the digits' value, the stripped title and the severity of the upper-cased signature, with the line kept |
| FindingParser.ExampleHeader | compiloor/services/parser/finding.py:33-47 | `# [h-03] X` parses to id `h-03`, number 3, title `X`, severity HIGH |
| FindingParser.ResolveStatus | compiloor/services/parser/finding.py:51-62 | without the status marker the status is Unresolved and the text is unchanged; any error comes from a marker with an unknown value |
| FindingParser.StatusExplicit | compiloor/services/parser/finding.py:53-60 | a marker followed by a status string yields that status, and the marker line is removed from the body |
| FindingParser.StatusPlaceholder | compiloor/services/parser/finding.py:54-56 | a marker followed by the placeholder yields Resolved, with the placeholder resolved and the marker line removed |
| FindingParser.StatusRejected | compiloor/services/parser/finding.py:58 | a marker followed by an unknown value raises `ValueError` naming the stripped value |
| FindingParser.StatusSpacedStays | compiloor/services/parser/finding.py:60 | a marker with a space before its value still sets the status, but the marker line stays in the body |
| FindingParser.FindingAnchor | compiloor/services/parser/finding.py:67-71 | the anchor id is `section-8-[[<rank>_severity_index]]-<id_num>` |
| FindingParser.RenderFragment | compiloor/services/parser/finding.py:67-71 | the rendered fragment opens the finding's anchor `div` and ends with the rendered body |
| FindingParser.ParseFinding | compiloor/services/parser/finding.py:24-71 | parsing succeeds exactly when the header line parses and the status resolves, and otherwise returns the first of those errors; a parsed finding carries the header's id, number, title and severity, the resolved status and cleaned text, and a render fragment that wraps the rendered cleaned text |
| FindingParser.NewFinding | compiloor/services/parser/finding.py:24-71 | the constructor's step-by-step mutation computes exactly the parse specification |
| FindingParser.ReadHeaderRow | compiloor/services/parser/finding.py:29-47 | the header-reading steps compute the header specification |
| FindingParser.ReadStatus | compiloor/services/parser/finding.py:51-62 | the status-reading steps compute the status specification |
| TemplateRoundTrip.TemplateParsesBack | compiloor/services/environment/setup.py:55-65 | a freshly added finding parses to id `<SIG>-<NN>`, number n, title `-`, the same severity and status Resolved |
| Markdown.DeleteChar | compiloor/services/parser/markdown.py:58 | deleting a character leaves no occurrence of it and never lengthens the text; a text without it is unchanged |
| Markdown.CreateHtmlFromMarkdown | compiloor/services/parser/markdown.py:51-58 | the rendered HTML, with every newline deleted when asked |
| Markdown.SplitLine | compiloor/services/parser/markdown.py:60-136 | a line of at most 80 characters, or past recursion depth 10, comes back unchanged |
| Markdown.SplitLineIfTooLong | compiloor/services/parser/markdown.py:60-136 | the scanning loops compute the splitting specification |
| Markdown.SplitLineSigned | compiloor/services/parser/markdown.py:73-89 | a long line starting with `+` or `-` takes the signed branch |
| Markdown.SplitLineComment | compiloor/services/parser/markdown.py:91-110 | a long line holding `//` takes the comment branch |
| Markdown.SplitLinePlain | compiloor/services/parser/markdown.py:112-136 | any other long line takes the plain branch |
| Markdown.BreakBeforeKeepsLine | compiloor/services/parser/markdown.py:67-68 | breaking before index i keeps every character of the line once, around the new line and prefix |
| Markdown.BreakAtSpaceRepeatsIt | compiloor/services/parser/markdown.py:67-68 | breaking at a space repeats that space at the start of the continuation |
| Markdown.SignedLineBreaksAtLowestSpace | compiloor/services/parser/markdown.py:73-80 | a signed line without `(` breaks at its smallest space index in 1..80, continued by the sign and a space |
| Markdown.SignedLineBreaksBeforeLastParen | compiloor/services/parser/markdown.py:82-84 | a signed line with `(` breaks before its last `(` below index 80 |
| Markdown.SignedLineWithoutBreakPoint | compiloor/services/parser/markdown.py:71-89 | a signed line without a break point yields the empty string |
| Markdown.CommentLineBreaksAtHighestSpace | compiloor/services/parser/markdown.py:95-110 | a comment line without `(` breaks at its largest space index up to 80, continued by `//` |
| Markdown.CommentLineBreaksBeforeLastParen | compiloor/services/parser/markdown.py:95-110 | a comment line with `(` breaks before its last `(` below 80 |
| Markdown.CommentLineWithoutBreakPoint | compiloor/services/parser/markdown.py:91-110 | a comment line without a break point yields the empty string |
| Markdown.PlainLineBreaksAtLowestSpace | compiloor/services/parser/markdown.py:115-122 | a plain line without `(` breaks at its smallest space, indented by two more spaces |
| Markdown.PlainLineBreaksBeforeLastParen | compiloor/services/parser/markdown.py:115-136 | a plain line with `(` breaks before its last `(` below 80, and its argument list is then reflowed |
| Markdown.ReflowAfterParenBreak | compiloor/services/parser/markdown.py:124-136 | reflowing the line broken before a `(` fails exactly when the continuation row is longer than 80 characters, the line holds a `,` and it holds no `)` |
| Markdown.PlainLineWithoutBreakPoint | compiloor/services/parser/markdown.py:112-136 | a plain line without a break point yields the empty string |
| Markdown.UnbreakableLineFails | compiloor/services/parser/markdown.py:93-94 | a long line with neither space nor `(` reaches the wrap branch, whose list result raises |
| Markdown.BlockCodeFails | compiloor/services/parser/markdown.py:27-49 | rendering a code block fails exactly when one of its lines fails to split |
| Markdown.BlockCodeShortLines | compiloor/services/parser/markdown.py:27-49 | a block whose lines are all short is highlighted unchanged, in its language or `solidity` by default |
| Markdown.RenderBlockCode | compiloor/services/parser/markdown.py:27-49 | the line-rewriting loop computes the block specification |
| Legend.SectionIndexText | compiloor/services/parser/legend.py:12-13 | a text index is kept; an integer index becomes its decimal string, which reads back to it |
| Legend.RunIndex | compiloor/services/parser/legend.py:19-34 | the severity index of finding i lies between 1 and i+1 |
| Legend.RunStartOf | compiloor/services/parser/legend.py:24-56 | every finding belongs to a run of equal severities whose first finding has the same index; its position in the run is its distance from that start plus one |
| Legend.SeverityEntry | compiloor/services/parser/legend.py:40-54 | a severity entry links to `#section-S-k`, shows `S.k. <Label> Findings` and holds the placeholder `{{[S.k]_page}}` |
| Legend.FindingEntry | compiloor/services/parser/legend.py:61-73 | a finding entry links to `#section-S-k-j`, shows `[id] title` without backticks and holds `{{[id]_page}}` |
| Legend.LegendPass | compiloor/services/parser/legend.py:17-73 | the loop emits the specified fragments in order and records each severity's index |
| Legend.CreateFindingSeveritiesLegendHtml | compiloor/services/parser/legend.py:5-75 | the legend is the concatenation of the fragments; an empty list gives `("", {})` |
| Legend.SeverityIndexed | compiloor/services/parser/legend.py:24-34 | a severity is in the index map exactly when some finding has it |
| Legend.SeverityIndexOfLastRun | compiloor/services/parser/legend.py:34 | a severity maps to the index of its last run |
| Legend.FragmentsHoldEntries | compiloor/services/parser/legend.py:36-73 | the concatenated legend holds every finding's entry and the entry of its run's severity |
| Legend.LegendPlaceholders | compiloor/services/parser/legend.py:32-68 | the legend holds the placeholder of every finding's id and of every run's subsection |
| Legend.RecurringSeverityOverwritten | compiloor/services/parser/legend.py:34 | for HIGH, LOW, HIGH the map gives HIGH the later index 3 |
| Tables.TitleHeading | compiloor/services/parser/table.py:47-49 | the heading is empty exactly when the title is empty |
| Tables.TableLayout | compiloor/services/parser/table.py:38-49 | the table is the wrapper around the title heading and the tabulated body |
| Tables.CreateHtmlTableAsWritten | compiloor/services/parser/table.py:24-55 | as written: fails with `IndexError` exactly when highlighting is asked for on no rows |
| Tables.HighlightAsWrittenNeverFires | compiloor/services/parser/table.py:51-53 | as written, the highlight pattern never occurs in a bracket-free table, so highlighting changes nothing |
| Tables.CreateHtmlTable | compiloor/services/parser/table.py:24-55 | fails exactly when highlighting is asked for and the last row is missing or empty; without highlighting it equals the program's table |
| Tables.HighlightFires | compiloor/services/parser/table.py:51-53 | corrected: a table holding the last row's opening gets that row marked bold |
| Tables.DropNine | compiloor/services/parser/table.py:70 | the result is the text without its first 9 characters, or empty when the text is shorter |
| Tables.CleanRowOfKey | compiloor/services/parser/table.py:70 | cleaning an information key gives back its config field |
| Tables.InformationKeysClean | compiloor/services/parser/table.py:65-70 | the five information keys clean to `protocol_name`, `repository`, `date`, `type` and `sloc`, in order |
| Tables.SeverityClassificationLayout | compiloor/services/parser/table.py:73-92 | the classification table is the fixed rows and columns in the table wrapper |
| Tables.InformationRowsFail | compiloor/services/parser/table.py:121-123 | building the information rows fails exactly when a cleaned key is missing from the config |
| Tables.InformationRowsKeep | compiloor/services/parser/table.py:121-123 | the rows are `[key, key_VALUE]` exactly for the keys whose value is not `-` |
| Tables.OneParagraphValue | compiloor/services/parser/table.py:132-133 | a value rendered as one paragraph loses its `<p>` and `</p>` tags |
| Tables.FillInformationUntouched | compiloor/services/parser/table.py:131-137 | a table without the first character of any key is left unchanged by the filling |
| Tables.CollectInformationRows | compiloor/services/parser/table.py:119-123 | the row loop computes the row specification and fails exactly for a missing field |
| Tables.FillInformationTable | compiloor/services/parser/table.py:131-137 | the replacement loop fills values before labels, key by key |
| Tables.InformationTable | compiloor/services/parser/table.py:96-139 | the table fails exactly when a field is missing; otherwise it is the titled table with values and labels filled in |
| Tables.InformationTableUnique | compiloor/services/parser/table.py:96-139 | the information table is determined by its inputs |
| Tables.CreateInformationTable | compiloor/services/parser/table.py:96-139 | the same, over the five information keys |
| Tables.CountedSeveritiesSpec | compiloor/services/parser/table.py:171-174 | the counted severities are exactly those with a non-zero amount, in ascending rank |
| Tables.CountTableSeveritiesSpec | compiloor/services/parser/table.py:171-178 | after the reversal the count rows list exactly the non-zero severities in descending rank |
| Tables.CountTableRowsSpec | compiloor/services/parser/table.py:171-180 | there is one row per counted severity with its amount, followed by the total row |
| Tables.CreateFindingsCountTable | compiloor/services/parser/table.py:142-193 | the count table is the table of those rows built with the highlight as written, with bold `Total Findings` and a bold total |
| Tables.CountTableUnhighlighted | compiloor/services/parser/table.py:51-53 | the count table's total row is never bolded: for bracket-free rendered rows and title, the highlighted table is the plain titled table |
| Tables.FindingToTableRow | compiloor/services/parser/table.py:237-248 | a finding's row is `[id]`, the title without backticks, the display label and the status text |
| Tables.FindingRows | compiloor/services/parser/table.py:217 | there is one row per finding, in order |
| Tables.LinkFindingsFails | compiloor/services/parser/table.py:222-227 | linking fails (`KeyError`) exactly when some finding's severity has no index |
| Tables.LinkFindingsLinksLast | compiloor/services/parser/table.py:222-227 | when a finding's `[id]` is still in the table before its step, its severity is indexed and the table afterwards holds its link |
| Tables.LinkSummaryIdentifiers | compiloor/services/parser/table.py:222-227 | the linking loop computes the linking specification |
| Tables.CreateFindingsSummaryTable | compiloor/services/parser/table.py:195-229 | the summary is the linked titled table of the finding rows and fails exactly when a severity is unindexed |
| Tables.FragmentToCallable | compiloor/services/parser/table.py:251-280 | the registry has exactly the four names of `tables()`, in order, each bound to a different table |
| Report.NonEmptySeveritiesSpec | compiloor/services/parser/utils.py:151-160 | the kept severities are exactly those with a non-empty list, in ascending rank |
| Report.ReportKeysSpec | compiloor/services/parser/utils.py:151-168 | reversed, they are exactly the non-empty severities in descending rank |
| Report.Sources | compiloor/services/parser/utils.py:168-169 | each concatenated fragment comes from one of the kept severities' lists |
| Report.SourcesDescend | compiloor/services/parser/utils.py:168-169 | concatenated fragments come from severities of non-increasing rank |
| Report.ParseAll | compiloor/services/parser/utils.py:171 | serialising succeeds exactly when every fragment parses; the i-th finding is the parse of the i-th fragment; a failure is some fragment's error |
| Report.SerializeFindings | compiloor/services/parser/utils.py:171 | the serialising loop computes that specification |
| Report.SerializedDescending | compiloor/services/parser/utils.py:151-171 | when every header names its folder's severity, the findings come highest severity first |
| Report.RenderedOfMembers | compiloor/services/parser/utils.py:181 | a severity's block holds exactly the render fragments of that severity's findings |
| Report.CollectRendered | compiloor/services/parser/utils.py:177-181 | the grouping loop computes the per-severity render lists |
| Report.WithAuthor | compiloor/services/parser/utils.py:221 | only the first heading changes, and it gets `" " + author` appended |
| Report.SeverityBlock | compiloor/services/parser/utils.py:204-215 | a block opens `section-S-k`, shows `S.k. <Label> Findings` and holds the joined fragments |
| Report.AssembleRuns | compiloor/services/parser/utils.py:184-218 | succeeds exactly when every run's severity has a block; the headings are the static list plus `[id] title` per finding and `S.k. <Label> Findings` per new run |
| Report.AssembleFindingFragments | compiloor/services/parser/utils.py:138-224 | the whole stage computes its specification from the store |
| Report.GetFindingFragments | compiloor/services/parser/utils.py:138-224 | the same, with the finding parser and the block layout fixed |
| Report.HeadingsHoldRuns | compiloor/services/parser/utils.py:189-198 | every finding's heading and its run's subsection heading are in the heading list |
| Report.LegendHeadingsAreSectionHeadings | compiloor/services/parser/utils.py:189-198 | each subsection heading the legend shows is also a section heading |
| Report.LegendIndexIsRun | compiloor/services/parser/legend.py:24-34 | for findings sorted by descending severity, the legend's index for a severity is the run number the assembler gives it |
| Report.AnchorResolved | compiloor/services/parser/utils.py:218 | replacing the severity-index token turns a finding's anchor into `section-8-k-<id_num>` |
| Report.SummaryLinkTargetsAnchor | compiloor/services/parser/table.py:222-227 | each summary-table link points at its finding's anchor once the block has resolved its index |
| Report.NoKeyErrorWhenHeadersMatch | compiloor/services/parser/utils.py:177-201 | when headers match their folders, every run finds its block and every finding is rendered in it |
| Report.FindingFragmentsSucceed | compiloor/services/parser/utils.py:138-224 | with matching headers and parsable files, the stage succeeds with the author in the first heading and the legend's indexes equal to the runs |
| Customizer.SubstituteIntroduces | compiloor/services/parser/utils.py:114-121 | when a pattern is present before its step, the text afterwards holds its replacement |
| Customizer.ConfigPairs | compiloor/services/parser/utils.py:55-64 | one pair per config key in order: `{{config.<key>}}` becomes its value, rendered when the key contains `_content` |
| Customizer.BoldPairs | compiloor/services/parser/utils.py:66-75 | one pair per information key: the key becomes its bold label |
| Customizer.MainSectionPairs | compiloor/services/parser/utils.py:113-121 | `{{findings}}`, `{{total_findings_amount}}` and `{{stylesheet}}`, in that order, become their attributes |
| Customizer.BuildTable | compiloor/services/parser/utils.py:80-93 | each table name is built with the arguments the program passes it, the count table with the highlight as written |
| Customizer.InsertTablesAfterFailure | compiloor/services/parser/utils.py:91-93 | once a table fails, the later tables change neither the report nor the error |
| Customizer.ReportCustomizer.constructor | compiloor/services/parser/utils.py:36-51 | the customizer holds the config, template, stylesheet and finding fragments it is given, and an empty index map |
| Customizer.ValidKeysHaveValues | compiloor/services/environment/utils.py:26-34 | a configuration as `json.loads` reads it has a value for every listed key, which the customizer needs |
| Customizer.ReportCustomizer.AddReportConfigVariables | compiloor/services/parser/utils.py:55-64 | the report is the old one with every config placeholder filled |
| Customizer.ReportCustomizer.AddInformationTableVariablesToReport | compiloor/services/parser/utils.py:66-75 | the report is the old one with every information key bolded |
| Customizer.ReportCustomizer.AddFindingsLegend | compiloor/services/parser/utils.py:99-107 | the legend replaces `{{findings_legend}}` and the severity indexes are the legend's |
| Customizer.ReportCustomizer.AddDynamicTablesToReport | compiloor/services/parser/utils.py:77-97 | the four tables, the count table with the highlight as written, replace their placeholders in registry order, then `<td>[` cells get the no-wrap class; a failing table is reported |
| Customizer.ReportCustomizer.AddMainSections | compiloor/services/parser/utils.py:113-121 | the report has the three main sections filled in |
| Customizer.ReportCustomizer.FillSectionsAndLegend | compiloor/services/parser/utils.py:113-130 | the main sections are filled, then the legend is rendered and the severity-to-index map is recorded from the serialized findings |
| Customizer.ReportCustomizer.FillLabelsAndConfig | compiloor/services/parser/utils.py:124-130 | the information-table labels are bolded and then every config placeholder is filled, with nothing else changed |
| Customizer.ReportCustomizer.FillPlaceholders | compiloor/services/parser/utils.py:113-134 | sections, legend, bold labels, config variables and the legend again, in the program's order |
| Customizer.ReportCustomizer.AssembleReport | compiloor/services/parser/utils.py:109-136 | the final report is the filled template with the tables, built as the program builds them, added last |
| Customizer.LegendIndexesAll | compiloor/services/parser/utils.py:84 | the legend's map indexes every finding's severity, so the summary table never fails |
| Customizer.OnlyInformationFails | compiloor/services/parser/utils.py:80-93 | with the legend's index map, every table except the information table always builds |
| Customizer.CountTableInReportPlain | compiloor/services/parser/utils.py:80-93 | the count table placed in the report has no bolded row: it is the titled table with the totals filled in |
| Customizer.AssemblyFailsOnlyForMissingFields | compiloor/services/parser/utils.py:109-136 | assembly fails exactly when an information field is missing from the config, with that table's error |
| Indexing.BlankIndexes | compiloor/services/parser/indexing.py:25-29 | the pages marked for deletion are exactly those with empty text |
| Indexing.NonBlankPages | compiloor/services/parser/indexing.py:25-31 | the kept pages are exactly the non-empty ones; kept plus deleted is the page count |
| Indexing.NoBlankKeepsAll | compiloor/services/parser/indexing.py:25-31 | a document without blank pages is unchanged |
| Indexing.DeleteBlankPages | compiloor/services/parser/indexing.py:25-31 | the document keeps exactly its non-blank pages, in order |
| Indexing.StampedNumbers | compiloor/services/parser/indexing.py:34-48 | every page except the cover gets its post-deletion index as footer text; nothing else changes |
| Indexing.NormalizeText | compiloor/services/parser/indexing.py:50 | the normalised text holds no newline |
| Indexing.Shorten | compiloor/services/parser/indexing.py:55-62 | a shortened heading is a prefix of at most 38 characters without backticks; a short backtick-free heading is unchanged |
| Indexing.ShortenIdempotent | compiloor/services/parser/indexing.py:55-62 | shortening twice is shortening once |
| Indexing.ShortenKeepsPrefix | compiloor/services/parser/indexing.py:55-62 | shortening keeps every backtick-free prefix of at most 38 characters |
| Indexing.ShortenAll | compiloor/services/parser/indexing.py:52-62 | every heading in the list is shortened |
| Indexing.ShortenAllIdempotent | compiloor/services/parser/indexing.py:52-62 | the headings written back are stable under a second pass |
| Indexing.ShortenInPlace | compiloor/services/parser/indexing.py:55-62 | the caller's list gets the shortened heading at that position only |
| Indexing.CountHeading | compiloor/services/parser/indexing.py:64-80 | one heading on one page advances the resolution as specified |
| Indexing.VisitHeadings | compiloor/services/parser/indexing.py:52-80 | one page's pass shortens every heading in place and counts each against the page |
| Indexing.ResolveHeadings | compiloor/services/parser/indexing.py:34-80 | footers are stamped, the headings are shortened in place, and the resolution is that of pages 1 onwards |
| Indexing.VisitAllValid | compiloor/services/parser/indexing.py:64-80 | each page's pass keeps the resolution invariant |
| Indexing.VisitAllCounts | compiloor/services/parser/indexing.py:51-80 | one page's pass counts a heading once per list entry equal to it when the page holds it, stops at the threshold, and resolves the heading to that page |
| Indexing.ResolveUpToValid | compiloor/services/parser/indexing.py:34-80 | a resolved heading is on a page after the cover whose text contains it, with its threshold (2, or 3 after `[`) reached; an unresolved one is below it; keys are in first-resolution order without repeats; and every heading's count and page follow its sightings |
| Indexing.ResolveUpToCounts | compiloor/services/parser/indexing.py:51-80 | after pages `1..m-1` a heading is counted iff it was seen, its count is its sightings capped at the threshold, it is resolved iff the sightings reach the threshold, and its page is the one where they did |
| Indexing.ResolvedAtThreshold | compiloor/services/parser/indexing.py:51-80 | a resolved heading's page is the first one by which it has been seen its threshold number of times |
| Indexing.ResolvedStays | compiloor/services/parser/indexing.py:67 | a resolved heading is never reassigned by later pages |
| Indexing.FirstTokenKey | compiloor/services/parser/indexing.py:84-88 | the search key depends only on the heading's first token |
| Indexing.ShortenKeepsKey | compiloor/services/parser/indexing.py:55-88 | shortening a heading whose first token fits keeps its search key |
| Indexing.SeverityHeadingKey | compiloor/services/parser/indexing.py:84-88 | the key of `S.k. <Label> Findings` is the legend's `{{[S.k]_page}}` |
| Indexing.FindingHeadingKey | compiloor/services/parser/indexing.py:84-88 | the key of `[id] title` is the legend's `{{[id]_page}}` |
| Indexing.FindingTokenSurvives | compiloor/services/parser/indexing.py:55-88 | after shortening, a finding heading still yields its legend placeholder |
| Indexing.SeverityTokenSurvives | compiloor/services/parser/indexing.py:55-88 | after shortening, a subsection heading still yields its legend placeholder |
| Indexing.FirstHit | compiloor/services/parser/indexing.py:89-104 | the search stops at the first page holding the key; none is found only when no page holds it |
| Indexing.PlaceKey | compiloor/services/parser/indexing.py:89-104 | only the first hit on the first matching page is rewritten; a missing key changes nothing |
| Indexing.PlacedRedactions | compiloor/services/parser/indexing.py:82-104 | the page count is kept; at most one rewrite per heading; each rewrite puts a resolved heading's page in place of its key |
| Indexing.ResolvePlaceholders | compiloor/services/parser/indexing.py:82-104 | the placeholder loop computes the rewrite specification, appending its rewrites |
| Indexing.Resolved | compiloor/services/parser/indexing.py:34-80 | the resolution of the kept pages satisfies the resolution invariant: each resolved heading is on a page after the cover that holds it |
| Indexing.ResolvedBySightings | compiloor/services/parser/indexing.py:51-80 | over the kept pages each shortened heading is counted up to its threshold by its sightings, resolved iff they reach it, and resolved to the page where they did |
| Indexing.Document.constructor | compiloor/services/parser/indexing.py:11-20 | a document opens with its pages, no footers and no rewrites |
| Indexing.CreateReportWithPageNumbersAndLegend | compiloor/services/parser/indexing.py:11-106 | blank pages go, footers are stamped, headings are resolved on the kept pages, and placeholders are rewritten |
| Indexing.PageNumbersPointAtHeadings | compiloor/services/parser/indexing.py:82-104 | every page number written is a page after the cover whose text holds the heading it stands for |

## Left out

- File-system, network and clock I/O are inputs:
  - directory listings are `seq<string>` and file contents `map<string, string>`;
  - `requests.get` template and stylesheet downloads are contents passed in;
  - the config JSON is passed in as ordered key/value pairs;
  - writing, creating and deleting files is not modelled;
  - `get_current_timestamp` is not modelled.
- `ReportCustomizer.__init__` (compiloor/services/parser/utils.py:36-53) reads files. The constructor receives what it reads, and the final `assemble_report` call is a separate method.
- `assemble_report` discovers its `add_*` methods with `getmembers` in name order. The model fixes that order, and the customizer's config values are strings.
- The `create_markdown` import in compiloor/services/parser/utils.py:11 names a function that compiloor/services/parser/markdown.py does not define. The model passes the renderer for `_content` values as a parameter.
- mistune, pygments and `tabulate` are opaque function parameters; their output is not modelled.
- The `textwrap.wrap` branches of `split_line_if_too_long` (compiloor/services/parser/markdown.py:93-94, 112-113) are reached only by a long line without space or `(`. There the model returns the error that the list result then raises (`Markdown.UnbreakableLineFails`).
- PyMuPDF is modelled only as plain values:
  - text extraction is the parameter `extract(text, footer)`, and `search_for` is substring search;
  - a redaction is a `Redaction(page, key, number)` record plus the first-occurrence replacement in the page text;
  - rectangle geometry, fonts, colours, `clean_contents` and the encrypted save are not modelled.
- Python dict insertion order:
  - severity maps follow ascending rank (the order `get_finding_fragments` builds them);
  - the heading-to-page map keeps its first-resolution order in `Resolution.order`;
  - a `Config` keeps its keys in a sequence.
- Strings.PythonInt: only ASCII digits, an optional sign and surrounding whitespace are accepted. Python's `int` also accepts `_` separators and other Unicode decimal digits, so the model raises where Python would not.
- Strings.IsDigit: only `0`-`9`, where Python's `str.isdigit` also accepts other Unicode digits. Through it, `Typings.ParseIdentifier`, `Typings.NewFindingIdentifier` and `FindingParser.ParseIdNumber` exit or raise on identifiers Python would accept.
- Strings.Upper: only `a`-`z` are upper-cased, where Python's `str.upper` maps all of Unicode (`ſ` to `S`, for example). `FindingParser.ParseIdNumber` therefore rejects such signatures.
- EnvironmentUtils.ReportName: `abspath(REPORTS_DIRECTORY)` depends on the working directory, so it is the parameter `reportsPath`; path normalisation is not modelled.
- Indexing.Resolved: its own ensures states only the soundness invariant. How each heading is counted and where it resolves is stated by the lemma `Indexing.ResolvedBySightings`, which keeps that quantified statement out of the callers' proofs.
- Indexing.StampedNumbers: the footer text is the decimal string of the page index. The fact that it reads back to that index is stated separately by `Strings.PythonIntOfNatToString`.
- Indexing.NormalizeText: states only that no newline remains, not the exact single-pass collapsing of double spaces, which the function itself performs.
- compiloor/services/parser/chromium.py (HTML to PDF through Playwright), compiloor/services/cli/cli.py (command wiring), compiloor/services/logger/logger.py (console output), compiloor/services/utils/config.py and compiloor/services/utils/utils.py are not part of this model.
- compiloor/constants/logger.py is not part of this model: exit messages are represented by `ExitReason` tags.

## Findings

| source | as written | input that shows it | evidently intended | confidence | as-written member | corrected member |
|---|---|---|---|---|---|---|
| compiloor/services/environment/setup.py:19-22 | on failure the message is chosen by the expected flag, so it describes the opposite of the directory's actual state | an initialised directory with `initialized = False`, not forced: the message says the directory is not initialised | the message describes the actual state | not executed | EnvironmentSetup.CheckInitializedAsWritten | EnvironmentSetup.CheckInitialized |
| compiloor/services/parser/table.py:51-53 | the highlight searches for `<tr><td>` followed by Python's `str()` of the whole last row, which starts with `[` and never occurs in tabulate's HTML | the findings-count table with any rows: the total row is never bolded, and the report's count table is built this way (`Tables.CountTableUnhighlighted`) | the row that opens with the last row's first cell gets the bold class | not executed | Tables.CreateHtmlTableAsWritten | Tables.CreateHtmlTable |
