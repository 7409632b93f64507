# Sorotte verification tooling: a Dafny model

This project models the Python tooling that decides whether a change to Sorotte may be merged, promoted or
released, and proves what that tooling is for. Every loop that updates variables is a method proved equal to a
specification function (or directly to the property promised). The lemmas in the `...Theorems` modules say what that
function keeps and guarantees, and the modules of spelled-out meanings (`RustTokens`, `RustItems`, `QuotedPaths`,
`DiffAcceptance`, `PolicyMeaning`, `LineMeaning`, `EvidenceMeaning`, `BatchHeaders`) say exactly what it accepts and
yields, in terms that do not name it, for all inputs.

Check it with `dafny verify dfyconfig.toml`.

| part | modules |
|---|---|
| Changed-line coverage: the diff reader | `GitPaths`, `Hunks`, `HunkScripts`, `HunkTheorems`, `DiffMeaning`, `DiffFiles`, `DiffRendering`, `DiffFileTheorems`, `QuotedPaths`, `DiffAcceptance` and their theorem modules |
| Changed-line coverage: Rust source | `RustMask`, `TestItems` and their theorem modules, `RustTokens`, `RustItems`, `TestItemCoverage` |
| Changed-line coverage: policy, union, classification, gate | `CriticalPolicy`, `CoverageUnion`, `Analysis` and their theorem modules, `CriticalPolicyOrder`, `PolicyMeaning`, `LineMeaning`, `ExtraMap`, `PercentGate` |
| Bounded input | `BoundedInput` |
| Critical boundaries | `Boundaries`, `BoundaryCheck` |
| Behaviour evidence | `Evidence`, `EvidenceTheorems`, `EvidenceCompleteness`, `EvidenceMeaning` |
| Authority reads and promotion | `Snapshots`, `Lookups`, `GitHubReads`, `CheckLookups`, `ReleasedSource`, `PromotionAuthority`, `Promotion`, `PromotionOperation`, `ReleaseAuthority` |
| Archive extraction | `Extraction` |
| Exact recognizers | `ProfilePattern`, `EventSequences`, `BatchFrames`, `BatchHeaders` |

## Main results

- **A diff means what it says.** `PrintedDiffIsRead` takes any list of changed files, given by their old and new
  text as regions with edits, prints it as a unified diff in Git's form and reads it back: the result is exactly the inserted and
  shown lines of every new file if and only if each file is readable. The condition is spelled out from the
  printed form: the names survive the header line, content labels hold no space, numbers have at most twenty
  digits, and no hunk that takes no lines on one side touches a hunk that took some there.
- **The diff reader accepts exactly** the diffs whose every line fits (`DiffIsExact`): headers, labels, renames, marks,
  hunks and targets are all spelled out.
- **The Rust mask is exact.** A text is masked if and only if it is a sequence of Rust tokens, and then just the code is
  left; it fails exactly where a comment or string begins that never ends (`MaskIsExact`). It keeps every position, leaves
  no opener, and is idempotent.
- **Test items are excluded exactly.** What each attribute contributes is told by the masked text alone (`JudgeIsExact`,
  `TestRangesAreContributed`), and every excluded range runs from a test
  attribute to exactly the delimiter that closes its item. All test items are excluded as a whole exactly when none
  begins on an already excluded line and closes past it (`TestItemsAreExcluded`), in particular whenever items only
  nest (`NestedItemsAreWhole`).
- **One coverage map more, exactly.** Whether a run still passes with a further map is told by the old report and that
  map (`ExtraMapVerdict`).
- **The percentage gate is exact up to 2·10^24 + 2 coverable lines and at no larger bound** (`ExactnessLimit`).
- **Every status says what is known of its line** (`AnalysisIsExact`), one if-and-only-if per status from the source, the
  coverage and the structural lines; an unmapped line fails the run (`UnmappedLineFails`).
- **Conservation.** Every added line is reported once, all counts add up per file, per class and in total, and the
  run passes exactly when both classes meet their exact threshold.
- **The policy merge never weakens.** A path is critical under the merge exactly when it is under base or head.
- **An aggregate passes exactly when the evidence proves the catalog** (`PassesExactlyWhenProven`): every job, every field
  of every shard and every proof entry is spelled out, and catalog and evidence correspond one to one. It ignores shard
  order.
- **The module closure is exact** for every order in which the worklist is popped.
- **Authority is one snapshot.** Other actors may change the remote state between any two reads. Agreeing re-reads
  give one instant in which everything their results fix was so together, provided no changed value changes back
  (`RevertingValuesFoolRereads` shows that the proviso is needed). `FixedIsGuaranteed` and `AgreementIsDecisive` say
  exactly what that is, for every lookup, also one that asks a query twice. For the lookups of checks and of the merge
  subject it is worked out: `ChecksShow`, `PullSuiteIsNotFixed`, `ReleasedShows`, `MergeIsNotFixed`. A promotion
  succeeds only if its callback completed exactly once.
- **Extraction writes nothing unless everything passes, and then cannot collide.**

## Where the code and its documentation differ

- The hunk reader refuses some correct unified diffs: a hunk with a zero count that directly follows a hunk which
  took lines on that side is reported as overlapping (`TouchingInsertionIsRefused`; exact condition in
  `UnifiedDiffIsRead`). Git itself joins such changes into one hunk.
- The content labels of a path with a space end with a tab in Git's output and are refused, so content changes of
  such files are never accepted (`TabbedLabelIsRefused`; exact condition in `PrintedFileIsRead`).
- A test item that begins on a line which is excluded already is skipped, so its further lines can stay production
  (`SecondItemIsCutShort`; exact condition in `TestItemsAreExcluded`).

## What else the proofs show

- A further coverage map never removes evidence, but it can fail a run that passed: it does exactly when the lines it
  makes coverable outweigh those it covers (`ExtraMapCanFailTheGate`, `PassingRunVerdict`).
- The released-source lookup selects the checks twice and returns only the rows of the second selection. Read twice
  with the same result, it leaves open which merge the pull request had, and whether it had one at all in between
  (`MergeIsNotFixed`, and one such state in `MergeCanChangeUnseen`).
- The rows of a pull request do not fix the check suite that the lookup compares (`PullSuiteIsNotFixed`).
- The gate can pass a coverage below the minimum above the bound (`GateSlips`).
- Unreachable checks: the "adds new line more than once" error (`DuplicateErrorIsDead`), the ambiguity error of
  `match` for loaded policies (`LoadedPolicyNeverAmbiguous`) and the canonical-form test of the profile pattern
  (`CanonicalDigits`).

## Assumptions given as parameters

- Character classes (`isalnum`, `isspace`) are arbitrary predicates; case folding is an arbitrary character-wise
  map, which for extraction must leave the dot alone. `is_test_only_rust_path` is an arbitrary predicate.
- The lines that `lexical_non_coverable_lines` calls structural are an arbitrary set for each source.
- Record parsing, SHA-256, and the choice of a container producer from its inventories are arbitrary functions.
  Only `AcceptsExactlyTheFiles` assumes a collision-free hash.
- The remote state is an arbitrary function of time. The methods take the lookups of `merge_gate` and of the candidate
  tooling as arbitrary chains of dependent reads of bounded length; `CheckLookups`, `ReleasedSource` and `ToolingGates`
  give the chains of checks and merge subjects themselves. A query stands for one aspect of an answer, such as the run
  id of a check, and has no answer when the program would refuse it.
- The file system below a repository root is finite: finitely many sources, and directories nest finitely. Links may
  lead anywhere, also back to a directory above.

## Model

| member | source | states |
|---|---|---|
| RustMask.MaskRustCommentsAndLiterals | scripts/diff_coverage.py:1778-1866 | the in-place scan of the character list yields exactly the lexeme-by-lexeme mask `Mask`, errors included |
| RustMask.HideRange | scripts/diff_coverage.py:1783-1786 | a range of the list is blanked except its CR and LF, everything else is untouched |
| RustMask.BlockCommentEnd | scripts/diff_coverage.py:1798-1812 | the depth-counting loop ends where `BlockEnd` says, or finds no end |
| RustMask.StringLiteralEnd | scripts/diff_coverage.py:1838-1856 | the escape-flag loop ends where `StringEnd` says, or finds no end |
| RustMask.NextLexeme | scripts/diff_coverage.py:1789-1865 | the order in which comments, raw strings, strings and character literals are tried |
| RustMaskTheorems.BlockCommentIsNested | scripts/diff_coverage.py:1798-1816 | a block comment ends at a position exactly when the text up to there is a well-nested comment body |
| RustMaskTheorems.StringClosesAtFirstFreeQuote | scripts/diff_coverage.py:1838-1858 | a string ends at the first quote preceded by an even number of backslashes, and nowhere if there is none |
| RustMaskTheorems.MaskKeepsPositions | scripts/diff_coverage.py:1778-1866 | same length; every CR and LF in place; every other character kept or turned into a space |
| RustMaskTheorems.NothingSurvives | scripts/diff_coverage.py:1778-1866 | no quote, line comment, block comment or literal opener is left anywhere in the masked text |
| RustMaskTheorems.MaskIsIdempotent | scripts/diff_coverage.py:1778-1866 | masking a masked text never fails and changes nothing, even under another classification of word characters |
| RustTokens.MaskIsExact | scripts/diff_coverage.py:1778-1866 | masking yields a text if and only if the input is a sequence of well-formed tokens and the output keeps just the code; it fails with an error if and only if after some tokens a comment or string of that kind begins that never ends, at that line |
| RustTokens.CodeIsKept | scripts/diff_coverage.py:1788-1866 | a character is kept exactly where no comment, raw string, string or character literal begins |
| TestItems.RustAttributeSpans | scripts/diff_coverage.py:1869-1895 | the attribute scan returns the spans of `SpansFrom`, or its error with the line of the unclosed attribute |
| TestItems.LineStarts | scripts/diff_coverage.py:1931-1934 | the line-start list holds position 0 and every position after an LF, in order |
| TestItems.LineNumber | scripts/diff_coverage.py:1936-1937 | bisecting the line starts gives one plus the number of newlines before the position |
| TestItems.FindItemEnd | scripts/diff_coverage.py:1969-2008 | the paren/bracket/brace loop ends where `ItemEndFrom` says: closed, unclosed, or without an end |
| TestItems.JudgeSpan | scripts/diff_coverage.py:1940-2016 | what one attribute contributes: nothing, a line range, or an error |
| TestItems.InlineCfgTestModuleLines | scripts/diff_coverage.py:1911-2017 | the loop over attributes collects exactly the lines of `TestRanges`, or its first error |
| TestItemTheorems.CloseAfterIsLeast | scripts/diff_coverage.py:1869-1895 | a bracket match is the least position at which the nesting depth returns to zero |
| TestItemTheorems.AttributeSpansAreExact | scripts/diff_coverage.py:1869-1895 | spans are in order, disjoint, each starts at an attribute opener and ends at its matching bracket, and no opener is missed |
| TestItemTheorems.RefusedAttribute | scripts/diff_coverage.py:1884-1893 | attributes are refused only because of one whose bracket is never closed, at its line |
| TestItemTheorems.ItemEndIsExact | scripts/diff_coverage.py:1969-2008 | an item ends at the match of its first top-level `{`, or at its first top-level `;` or `,`, whichever delimiter comes first |
| TestItemTheorems.MaskKeepsLineNumbers | scripts/diff_coverage.py:1930-1937 | line numbers computed on the masked text are the line numbers of the original text |
| TestItemTheorems.RangesIncrease | scripts/diff_coverage.py:1938-2017 | the excluded ranges are disjoint and strictly increasing |
| RustItems.TestSupportIsRecognized | scripts/diff_coverage.py:1898-1908 | the attributes recognized are exactly the spelled-out markers with white space spread in them |
| RustItems.DeclarationIsExact | scripts/diff_coverage.py:1956-1968 | external, inline, ambiguous or no module, each if and only if a declaration rendered from visibility, keyword, white space and name stands there and is followed by `;`, by `{`, or by neither |
| RustItems.ItemStartIsExact | scripts/diff_coverage.py:1946-1954 | the item begins where white space and whole attributes lead and neither goes on |
| TestItemTheorems.JudgeIsExact | scripts/diff_coverage.py:1940-2016 | one if-and-only-if for each outcome of one attribute: nothing, the lines of its item, or which error |
| TestItemTheorems.TestRangesAreContributed | scripts/diff_coverage.py:1911-2017 | the excluded ranges, or the error, are exactly what the attributes contribute one after the other |
| TestItemTheorems.TestRangesAreExact | scripts/diff_coverage.py:1911-2017 | every excluded range comes from a test-support attribute and ends where its item closes, and every such attribute stands on an excluded line or declares an external module |
| TestItemCoverage.TestItemsAreExcluded | scripts/diff_coverage.py:1938-2017 | all lines of all test items kept in the file are excluded if and only if no test attribute stands on a line of an excluded range while its own item closes past the unbroken excluded lines there; only a skipped attribute can |
| TestItemCoverage.SecondItemIsCutShort | scripts/diff_coverage.py:1944-1945 | a file in which that happens: the second of two test functions that begin on one line, whose second line stays production |
| TestItemCoverage.NestedItemsAreWhole | scripts/diff_coverage.py:1938-2017 | when every test item that begins on a line of an earlier one also closes on a line of it, all test items are excluded as a whole |
| PercentGate.PercentIsExact | scripts/diff_coverage.py:2395-2402 | the 28-digit half-even quotient cut to two places is the true quotient cut to two places, for up to 2·10^24 + 2 coverable lines |
| PercentGate.GateIsExact | scripts/diff_coverage.py:2628-2643 | up to that bound the gate rejects exactly when 10000·covered < minimum·coverable |
| PercentGate.GateSlips | scripts/diff_coverage.py:2395-2411 | one line above the bound a coverage below the minimum passes: concrete counts |
| PercentGate.ExactnessLimit | scripts/diff_coverage.py:2395-2411 | the gate is exact for all counts up to a bound if and only if the bound is at most 2·10^24 + 2 |
| Utf8.DecodeEncoded | scripts/diff_coverage.py:289-341 | decoding the UTF-8 encoding of any text gives the text back |
| Utf8.DecodeIsExact | scripts/diff_coverage.py:334-341 | bytes decode to a text if and only if they are its encoding |
| GitPaths.DecodeGitQuotedPath | scripts/diff_coverage.py:289-341 | the escape-decoding loop computes `DecodePath`, with every error case |
| GitPaths.HeaderTokens | scripts/diff_coverage.py:344-376 | the header tokenizer loop computes `TokensOf` |
| GitPaths.SplitGitHeaderPaths | scripts/diff_coverage.py:344-381 | two tokens, decoded in order, or the first error |
| GitPathTheorems.QuotedPathDecodes | scripts/diff_coverage.py:289-341 | the quoted form of any path at all, with three-digit octal bytes, decodes to that path |
| GitPathTheorems.HeaderRoundTrip | scripts/diff_coverage.py:344-381 | quoting two paths, joining, tokenizing and decoding gives the same two paths if and only if neither is written unquoted while empty or holding a space |
| QuotedPaths.DecodesExactly | scripts/diff_coverage.py:289-341 | a value decodes to a path if and only if it is that path unquoted without tab or line end, or a quoted sequence of characters, escapes and octal bytes that encode it |
| QuotedPaths.HeaderIsExact | scripts/diff_coverage.py:344-381 | a header splits into two paths if and only if it is two tokens, with spaces around them, that denote them |
| HunkScripts.HeaderRoundTrip | scripts/diff_coverage.py:89-92 | the hunk-header pattern matches exactly the rendered headers and returns their parts |
| HunkScripts.BodyIsTaken | scripts/diff_coverage.py:453-496 | a rendered body within its declared counts is read to its end with the state the script determines |
| HunkScripts.BodyIsRead | scripts/diff_coverage.py:453-496 | and every body that is read is such a rendering |
| Hunks.ReadBody | scripts/diff_coverage.py:447-496 | the inner loop computes `Body`: markers, prefixes, duplicates, counts |
| Hunks.ParseHunks | scripts/diff_coverage.py:412-506 | the outer loop computes `Parse`: header syntax, 20-digit numbers, zero starts, ordering, exact counts |
| HunkTheorems.ValidScriptsAreRead | scripts/diff_coverage.py:412-506 | parsing a rendered valid script returns exactly its added lines and its bound lines with new-file numbers |
| HunkTheorems.AcceptsExactlyScripts | scripts/diff_coverage.py:412-506 | an input is accepted with a result if and only if it is the rendering of a valid script with that result |
| HunkTheorems.NumbersAreAnnounced | scripts/diff_coverage.py:404-441 | a header's numbers have at most twenty digits, and a count that is not written is one |
| HunkTheorems.AddedNumbersAscend | scripts/diff_coverage.py:412-506 | accepted added-line numbers are at least one and strictly increase across all hunks |
| HunkTheorems.DuplicateErrorIsDead | scripts/diff_coverage.py:479-489 | the "adds new line more than once" error is unreachable for every input |
| DiffMeaning.CheckBindings | scripts/diff_coverage.py:1346-1357 | the inner loop accepts exactly the bound lines that the source carries at their numbers, or reports the first that it does not |
| DiffMeaning.ValidateSourceBindings | scripts/diff_coverage.py:1317-1357 | the loop over files passes exactly when every changed Rust file is inside the repository, exists, and carries every bound line; otherwise the first error |
| DiffMeaning.PrintedValidity | scripts/diff_coverage.py:412-506 | when the hunks of a rendered edit script are valid: short numbers, and no zero-count hunk touching a hunk that took lines |
| DiffMeaningTheorems.UnifiedDiffIsRead | scripts/diff_coverage.py:412-506 | the unified diff between two files is accepted if and only if its numbers are printable and its regions separated; then the result is exactly the inserted and the shown lines of the new file, and the new file passes the binding check |
| DiffMeaningTheorems.TouchingInsertionIsRefused | scripts/diff_coverage.py:442-445 | a correct ascending script with a zero-count hunk right after a replacement is refused: concrete input |
| DiffFiles.FindStarts | scripts/diff_coverage.py:667-669 | the index list holds exactly the file headers, in order |
| DiffFiles.ParseSegments | scripts/diff_coverage.py:670-674 | slicing at those indices reads the files of `Segments`, or the first error |
| DiffFiles.CheckTargets | scripts/diff_coverage.py:675-683 | the seen-set loop reports the first file whose target path was seen before |
| DiffFiles.ParseUnifiedDiff | scripts/diff_coverage.py:659-684 | the whole reader computes `Diff`, errors in the order of the checks |
| DiffRendering.OneTag | scripts/diff_coverage.py:509-656 | no metadata prefix the reader tests for is a prefix of a line that carries another one |
| DiffRendering.NamesAreRead | scripts/diff_coverage.py:513-521 | a header line gives back both names if and only if they survive the header and are normal repository paths |
| DiffRendering.TabbedLabelIsRefused | scripts/diff_coverage.py:289-299 | a label that ends with a tab, as Git writes one with a space, is refused, quoted or not |
| DiffFileTheorems.ScriptHasNoHeader | scripts/diff_coverage.py:667-674 | no line of any rendered hunk can be taken for a file header |
| DiffFileTheorems.PrintedFileIsRead | scripts/diff_coverage.py:509-656 | a printed file (edited, created, deleted, renamed; silent, binary or with hunks) is read as exactly what it means if and only if its names, labels, payload and hunks are readable |
| DiffFileTheorems.MeaningBinds | scripts/diff_coverage.py:1317-1357 | what such a file shows of its new text is in that text at those line numbers |
| DiffFileTheorems.PrintedFilesAreRead | scripts/diff_coverage.py:667-674 | a printed diff splits at its file headers and every file is read on its own |
| DiffFileTheorems.PrintedDiffIsRead | scripts/diff_coverage.py:659-684 | a whole printed diff is read as the list of its files' meanings if and only if every file is readable, no line holds a NUL and no two targets coincide |
| DiffAcceptance.LabelsAre | scripts/diff_coverage.py:526-550 | content labels are accepted if and only if there are none, or exactly one adjacent pair that names the header's paths or the null device |
| DiffAcceptance.RenamesAre | scripts/diff_coverage.py:552-563 | a rename is accepted if and only if both its lines, once each, name the header's paths |
| DiffAcceptance.SegmentIsExact | scripts/diff_coverage.py:509-656 | a segment is read as a file if and only if its header, labels, rename, marks, metadata and hunks fit together as spelled out |
| DiffAcceptance.DiffIsExact | scripts/diff_coverage.py:659-684 | a diff is read as these files if and only if no line holds a NUL, its lines are the files' segments, each beginning at its only header, and all files have different targets |
| CriticalPolicy.FindOverlap | scripts/diff_coverage.py:1239-1248 | the pairwise loop finds an overlap exactly when the rules are not pairwise apart |
| CriticalPolicy.Remember | scripts/diff_coverage.py:1207-1225 | one rule enters the merged dictionary under its identity, origins joined |
| CriticalPolicy.MergeCriticalPathPolicies | scripts/diff_coverage.py:1195-1257 | the merge is the sorted union of base and head rules, or an error when the union is ambiguous |
| CriticalPolicyTheorems.OverlapIsExact | scripts/diff_coverage.py:888-900 | two rules overlap if and only if some path matches both under case folding |
| CriticalPolicyTheorems.LoadedPolicyNeverAmbiguous | scripts/diff_coverage.py:225-239 | with pairwise non-overlapping rules the defensive error of `match` cannot occur, on either platform |
| PolicyMeaning.MatchSays | scripts/diff_coverage.py:222-245 | a lookup fails exactly when two rules protect the path, and else finds a rule exactly when one does; paths are compared unchanged on a platform that does not fold |
| CriticalPolicyTheorems.MergeIsUnion | scripts/diff_coverage.py:1195-1257 | no identity is lost or duplicated and the origins record exactly the sources, whatever the dictionary order |
| CriticalPolicyOrder.SortedAscends | scripts/diff_coverage.py:1227-1238 | the merged rules ascend by folded path, kind, identifier, category and owner |
| CriticalPolicyOrder.MergeIgnoresDictionaryOrder | scripts/diff_coverage.py:1207-1248 | the order of the dictionary changes neither the verdict nor the accepted rules, which ascend strictly |
| PolicyMeaning.MergeMeans | scripts/diff_coverage.py:1195-1257 | the merged rules are those either revision declares, each once with its revisions, ordered by folded path, kind, identifier, category and owner |
| CriticalPolicyTheorems.UnionClaimsExactly | scripts/diff_coverage.py:1195-1257 | a path is critical under the merge if and only if it is critical under base or under head |
| CriticalPolicyTheorems.UnionIsApart | scripts/diff_coverage.py:1239-1248 | the merge is unambiguous if and only if base and head together are |
| CriticalPolicyTheorems.UnionNeverWeakens | scripts/diff_coverage.py:1195-1257 | a path that base or head protects is protected by the merge with the same rule identity |
| CoverageUnion.MergeLines | scripts/diff_coverage.py:2863-2868 | line counts merge to the larger one |
| CoverageUnion.UnionSourceCoverageMaps | scripts/diff_coverage.py:2846-2870 | the loop over maps computes `Union`, with the path-disagreement error |
| CoverageUnionTheorems.UnionIsPointwiseMaximum | scripts/diff_coverage.py:2846-2870 | a line's count is the greatest count any map reports, and a path is present exactly when some map mentions it |
| CoverageUnionTheorems.UnionIgnoresOrderAndRepetition | scripts/diff_coverage.py:2846-2870 | the union depends only on which maps there are |
| CoverageUnionTheorems.MoreMapsMoreEvidence | scripts/diff_coverage.py:2846-2870 | another map removes no path or line and lowers no count |
| Analysis.ClassifyLines | scripts/diff_coverage.py:2541-2583 | the per-line loop gives each line its status and counts them |
| Analysis.AnalyzeFile | scripts/diff_coverage.py:2462-2622 | one file's report: test-only scope, inline-test lines, statuses, class |
| Analysis.CountFiles | scripts/diff_coverage.py:2678-2692 | the counts of production, test-only and inline-test files |
| Analysis.AnalyzeCoverage | scripts/diff_coverage.py:2414-2698 | the loop over files computes `Analyze`: reports, totals per class, summary, gates, status |
| AnalysisTheorems.EveryLineIsReportedOnce | scripts/diff_coverage.py:2462-2622 | the reported lines are exactly the added lines of the Rust targets, in order, once each |
| LineMeaning.AnalysisIsExact | scripts/diff_coverage.py:2414-2622 | a change is analyzed if and only if every Rust source can be; each is then reported in order with its lines, its scope and class, one if-and-only-if per line status, and its counts |
| LineMeaning.ClassTotalsAreCounts | scripts/diff_coverage.py:2541-2622 | the totals of a class are the numbers of its lines with each status |
| LineMeaning.UnmappedLineFails | scripts/diff_coverage.py:2568-2643 | a production line that is not a test line, not reported and not structural fails the run |
| AnalysisTheorems.LinesAreConserved | scripts/diff_coverage.py:2414-2698 | changed = production + test-file + inline-test, production = coverable + non-coverable + unmapped, coverable = covered + uncovered, and the class totals add up to the global totals |
| AnalysisTheorems.PassedIsExact | scripts/diff_coverage.py:2624-2659 | the run passes if and only if both classes have no unmapped line and meet their exact threshold |
| AnalysisTheorems.CriticalFilesStayCritical | scripts/diff_coverage.py:2485-2530 | a production file whose old or new path base or head protects is counted as critical |
| AnalysisTheorems.SummaryIsExact | scripts/diff_coverage.py:2624-2694 | every changed Rust file is reported, the production files are those of both classes, and the overall percentage is the exact one up to the bound |
| AnalysisTheorems.ExtraMapMovesForward | scripts/diff_coverage.py:2541-2583 | another coverage map keeps every file, class and line, and moves each line's status only towards more evidence: covered stays covered, nothing becomes unmapped or non-coverable |
| AnalysisTheorems.ExtraMapCanFailTheGate | scripts/diff_coverage.py:2553-2583 | it can still fail a run that passed: a concrete line that was structural and is then reported unhit |
| ExtraMap.ExtraMapVerdict | scripts/diff_coverage.py:2541-2659 | with one more map each line's status moves as its old status and the new hits say, and the run passes if and only if in each class the map resolves all unmapped lines and 10000·(covered + gained) >= minimum·(coverable + counted) |
| ExtraMap.PassingRunVerdict | scripts/diff_coverage.py:2541-2659 | for a run that passed: it still passes if and only if that inequality holds in both classes |
| CoverageUnionTheorems.OneMoreMap | scripts/diff_coverage.py:2846-2870 | the union with one more map gives each line the larger of the old count and the new map's |
| BoundedInput.ByteStream.Read | scripts/artifact_input.py:31-34 | a read yields the next bytes, possibly fewer than asked, and nothing only at the end |
| BoundedInput.ByteStream.ReadLine | scripts/artifact_input.py:157-161 | a limited line read yields the rest of the physical line up to the limit |
| BoundedInput.ReadStreamBounded | scripts/artifact_input.py:26-38 | for every schedule of short reads: the exact content iff it fits the budget, never more than budget + 1 bytes taken |
| BoundedInput.StrictJsonlLoad | scripts/artifact_input.py:140-183 | the three-budget loop computes `Load` and never reads past the byte budget + 1 |
| BoundedInput.LinesAreTheFile | scripts/artifact_input.py:140-183 | the physical lines are complete and together are the file |
| BoundedInput.LoadIsExact | scripts/artifact_input.py:140-183 | a load succeeds if and only if size, content, line count and every complete line meet their limits; then the records are those of the complete lines |
| Boundaries.ResolveModules | scripts/critical_boundaries.py:72-93 | every non-test declaration has exactly one existing candidate |
| Boundaries.SearchIsExact | scripts/critical_boundaries.py:61-95 | a path leads exactly to what a directory holds or to the one file of each module that is no test module, and is at fault exactly for a link, an escape, an absence or a module without exactly one file |
| Boundaries.OwnedModules | scripts/critical_boundaries.py:57-95 | for every order of popping: success exactly when no reachable path is faulty, and then exactly the reachable production files; an error names a reachable fault |
| BoundaryCheck.BlankSpans | scripts/critical_boundaries.py:47-48 | the span-by-span rewriting blanks exactly the union of the spans, nested ones included, and keeps every newline |
| BoundaryCheck.WithoutTestModules | scripts/critical_boundaries.py:32-49 | every test module is blanked from its attribute to the least position that closes its brace, or the scan fails |
| BoundaryCheck.CheckBoundary | scripts/critical_boundaries.py:109-129 | one boundary passes exactly when its roots are well-formed and every reachable production file has a rule with its owner |
| BoundaryCheck.Validate | scripts/critical_boundaries.py:98-130 | the catalog passes exactly when every boundary holds and identifiers are distinct; inventories are the reachable files |
| Evidence.SortShards | scripts/behavior_evidence.py:1056-1065 | shards reach their lane, or cost an intake error |
| Evidence.CheckProofs | scripts/behavior_evidence.py:1151-1186 | the loop over proof entries computes `TakeProofs`: order, duplicates, lane, observations |
| Evidence.CheckShard | scripts/behavior_evidence.py:1090-1204 | one shard's contribution to errors, observations and inventories |
| Evidence.AggregateEvidence | scripts/behavior_evidence.py:1013-1253 | the nested loops compute `AggregateOf` |
| EvidenceTheorems.AggregateIgnoresOrder | scripts/behavior_evidence.py:1013-1253 | permuting the shards leaves the whole aggregate unchanged |
| EvidenceCompleteness.PassesExactlyWhenComplete | scripts/behavior_evidence.py:1013-1253 | the aggregate passes if and only if jobs and shards are accounted for, every lane has one sound shard, proofs and reports correspond one to one, and every inventory is a permutation of the catalog's |
| EvidenceMeaning.PassesExactlyWhenProven | scripts/behavior_evidence.py:922-1253 | the aggregate passes if and only if attempt, jobs, every field of every lane's only shard, every field of every entry, the cases and the correspondence with the catalog are as spelled out |
| EvidenceMeaning.EntryIsChecked | scripts/behavior_evidence.py:922-1010 | a proof entry has no error and claims to have passed if and only if its scalars, commands, return code and observations are the expected ones |
| EvidenceMeaning.ShardIsChecked | scripts/behavior_evidence.py:1072-1150 | a shard has no error of its own if and only if its fields are those of a successful run of this commit, no later attempt, on a system of the lane |
| EvidenceMeaning.PassingBehaviors | scripts/behavior_evidence.py:1229-1240 | in a passing aggregate every behaviour passes, except one without any proof |
| EvidenceTheorems.PassingIsBijection | scripts/behavior_evidence.py:1013-1253 | a pass implies one sound shard per lane, every catalog proof reported exactly once and in its own lane, and each semantic inventory a permutation of the catalog's |
| Extraction.Disk.MakeDirectories | scripts/candidate_authority.py:348-349 | creating parents succeeds exactly when no file is in the way, and then adds exactly the missing directories |
| Extraction.Disk.CreateFile | scripts/candidate_authority.py:350-351 | exclusive creation succeeds exactly when the target is absent and its parent exists |
| Extraction.CheckMembers | scripts/candidate_authority.py:321-342 | the validation loop accepts exactly the members that are safe, distinct after folding and absent from the disk |
| Extraction.FindOverlapping | scripts/candidate_authority.py:343-347 | the set-of-parents test is the pairwise "no file above another file" condition on folded paths |
| Extraction.WriteFiles | scripts/candidate_authority.py:348-351 | after validation every write step finds its target free and its parents creatable, in any member order |
| Extraction.WrittenIsPresent | scripts/candidate_authority.py:348-351 | every written file is on the disk with its content afterwards |
| Extraction.ExtractArtifact | scripts/candidate_authority.py:318-351 | extraction succeeds exactly when everything is acceptable; a refusal leaves the disk untouched |
| ReleaseAuthority.PromoteMain | scripts/candidate_authority.py:289-297 | at every instant of the candidate lookup, whose run gave the candidate, all that the merge subject and the PR checks fix was so |
| ReleaseAuthority.AuthorizeRelease | scripts/candidate_authority.py:300-315 | at every instant of the candidate lookup all that protection, main checks, merge subject and PR checks fix was so together; the main commit was read from the branch before, and the source is the merged head |
| ReleaseAuthority.AuthorizedMeans | scripts/candidate_authority.py:264-315 | with the lookups of the tools: in that instant main was the commit that merged the candidate, with its tree and on its base, the checks of main stood as a whole, and the rows of the pull request tell only what was so |
| ReleaseAuthority.CurrentSubjectShows | scripts/candidate_authority.py:264-286 | a merge subject read before and after an instant stood in it |
| Snapshots.AgreementShows | scripts/container_promotion.py:227-244 | when a chain of dependent reads gave the same result before and after an instant and no changed value changed back, every answer the result fixes was so in that instant; and if the result is settled, the chain would have yielded it then |
| Snapshots.FixedIsGuaranteed | scripts/container_promotion.py:227-244 | an answer holds between agreeing runs in every history if and only if any two runs that give the result, one after the other and without a value changing back, both read it |
| Snapshots.AgreementIsDecisive | scripts/container_promotion.py:227-244 | agreeing runs always mean that the result would be yielded in between if and only if any two such runs share the answers of a run that yields it |
| Snapshots.AskingOnceFixes | scripts/container_promotion.py:227-244 | for procedures that ask no query twice: the answers fixed are those the result reveals, and it is settled exactly when it tells all that was read |
| Snapshots.OneTruth | scripts/container_promotion.py:217-258 | at one instant a procedure reads one list of facts |
| Snapshots.StillRunsAgree | scripts/container_promotion.py:234-244 | while nothing changes, a second run agrees with the first |
| Snapshots.RevertingValuesFoolRereads | scripts/container_promotion.py:217-258 | without that assumption agreeing re-reads prove nothing: a concrete history |
| Snapshots.Remote.Get | scripts/container_promotion.py:100-115 | a read may happen at any later time and answers what holds then |
| Snapshots.Remote.Perform | scripts/container_promotion.py:217-258 | a procedure's reads happen one after another with arbitrary changes in between |
| CheckLookups.ChecksHoldMeans | scripts/merge_gate.py:160-222 | in one instant the lookup of checks yields exactly the rows for which a check and its run stand with the required workflow and one suite; a shared run is read once |
| CheckLookups.ChecksRead | scripts/candidate_authority.py:241-261 | the rows a run of the lookup reports tell what that run read |
| CheckLookups.ChecksShow | scripts/merge_gate.py:184-222 | rows found before and after an instant: check id, run id, workflow and attempt were so in it; on main the whole lookup would have yielded them |
| CheckLookups.PullSuiteIsNotFixed | scripts/candidate_authority.py:241-261 | the rows of a pull request never fix the suite of a check, whenever they hold |
| ReleasedSource.SubjectIsRead | scripts/candidate_authority.py:264-286 | a merge subject is what eight reads say: parents, tree, the one pull request, its base, reference and merge, the merge base and the candidate's tree |
| ReleasedSource.ReleasedHoldsMeans | scripts/container_promotion.py:186-214 | in one instant the released-source lookup yields exactly the rows of the route that the event of the selected checks takes; for a pull request only if its merge stands and is an ancestor of the tooling |
| ReleasedSource.ReleasedShows | scripts/container_promotion.py:186-214 | all that agreeing rows tell was so in between |
| ReleasedSource.ReleasedAsksTwice | scripts/container_promotion.py:193-214 | every successful run asks for the first check twice |
| ReleasedSource.MergeIsNotFixed | scripts/container_promotion.py:186-214 | in every state in which the rows of a merged pull request hold: its merge can be replaced by another and be missing for an instant without any value changing back; the readings agree and the lookup would have yielded nothing in between |
| ReleasedSource.MergeCanChangeUnseen | scripts/container_promotion.py:186-214 | one such state and history |
| PromotionAuthority.ReleaseIsFaithful | scripts/container_promotion.py:132-165 | equal release identities come from equal facts |
| PromotionAuthority.ReleaseIdentity | scripts/container_promotion.py:132-165 | the four dependent reads are a run of the release procedure |
| PromotionAuthority.ReleaseHoldsMeans | scripts/container_promotion.py:132-165 | the identity holds at an instant if and only if the raw answers of that instant form the annotated tag, its commit, the latest stable release and an ancestor of the tooling |
| PromotionAuthority.ContainerAuthority | scripts/container_promotion.py:168-183 | the reads are a run of the producer procedure; when the artifacts were listed, the run attempt, the job and the artifact were as returned; without any change it never reports one |
| PromotionAuthority.ProducerStandsWhenListed | scripts/container_promotion.py:168-183 | any run of the producer procedure whose values do not change back has its producer standing at the time of the artifact listing |
| Promotion.ReadBefore | scripts/container_promotion.py:227-232 | the first readings, in program order |
| Promotion.ReadAfter | scripts/container_promotion.py:234-241 | the second readings, each compared; they fail for change only if something changed |
| Promotion.CollectAuthority | scripts/container_promotion.py:217-258 | on success there was one instant, between the first and the last read of the producer lookup, in which checkout, operator run, release and producer were as the identity says, with all that protection, tooling checks and source checks fix |
| Promotion.AuthorizedMeans | scripts/container_promotion.py:227-252 | with the lookups of the tools: the checks of the tooling stood as a whole in that instant, and the rows of the released source tell only what was so |
| Promotion.ToolingGatesAreBounded | scripts/container_promotion.py:186-214 | those lookups end after boundedly many reads |
| PromotionOperation.Operation.BeforeLatestAssignment | scripts/container_promotion.py:298-307 | the callback completes at most once, and only with the identity, receipt digest and evidence of the start |
| PromotionOperation.Operation.PromoteApprovedDigest | scripts/container_promotion.py:309-313 | any number of callback invocations, with swallowed or escaping exceptions, keeps that invariant |
| PromotionOperation.Promote | scripts/container_promotion.py:275-325 | a promotion succeeds only if the callback completed exactly once, and the initial identity was true as a whole at an instant of the operation |
| EventSequences.AcceptExchanges | scripts/gui_real_mpv_vertical_contract.py:2030-2065 | the exchange loop computes `AcceptFrom` |
| EventSequences.AcceptsExactlyBlocks | scripts/gui_real_mpv_vertical_contract.py:2030-2065 | accepted exactly when the rows are one block per expected action, seeks followed by one pause, and nothing else |
| EventSequences.ValidateObservations | scripts/gui_real_mpv_vertical_contract.py:667-701 | the greedy search succeeds exactly when some ordered load, play, pause triple exists |
| ProfilePattern.ValidateProfilePatternName | scripts/coverage_profile_lanes.py:335-378 | the index loop computes `Accepted` |
| ProfilePattern.CanonicalDigits | scripts/coverage_profile_lanes.py:352-366 | the canonical-form test can never fire after the first-digit test |
| ProfilePattern.AcceptsExactlyTheLanguage | scripts/coverage_profile_lanes.py:335-378 | accepted exactly when the name ends in the suffix and reads as plain characters, one process id and one canonical pool of 1 to 2^32 - 1 |
| BatchFrames.ByteBuffer.ReadLine | fuzz/run_protocol_fuzz.py:217-219 | a line read takes the front line with its line feed |
| BatchFrames.ByteBuffer.Read | fuzz/run_protocol_fuzz.py:222-227 | a read takes as many bytes as asked up to the end, all of them for a negative size |
| BatchFrames.ReadObject | fuzz/run_protocol_fuzz.py:219-224 | header, body and line feed of one object, or the error |
| BatchFrames.RequireCommittedSource | fuzz/run_protocol_fuzz.py:217-228 | the loop over entries computes `Check` |
| BatchFrames.AcceptsExactlyCommitted | fuzz/run_protocol_fuzz.py:217-228 | accepted exactly when the response is one frame per entry with recorded length and hash and nothing more |
| BatchHeaders.HeaderIsExact | fuzz/run_protocol_fuzz.py:219-222 | a header line gives a size if and only if it is ASCII text of three words, the second `blob`, the third an integer numeral of that value |
| BatchHeaders.AcceptsExactlyRecorded | fuzz/run_protocol_fuzz.py:217-228 | a response is accepted if and only if it is, for each entry, such a line, the recorded bytes and a line feed, and no more |
| BatchFrames.AcceptsExactlyTheFiles | fuzz/run_protocol_fuzz.py:217-228 | with a collision-free hash, accepted exactly when the frames carry the very files of the manifest |
| BatchFrames.RenderingIsRead | fuzz/run_protocol_fuzz.py:217-228 | the rendering of any blob sequence, whatever its bytes, is accepted exactly when lengths and hashes match in order |
| BatchFrames.OneReading | fuzz/run_protocol_fuzz.py:217-228 | the same bytes cannot be two different frame sequences |

## Left out

- Boundaries.ResolveModules: the regular expressions that find module declarations are not modelled; a source comes with its list of declarations, test modules already marked.
- BoundaryCheck.WithoutTestModules: the mask of literals and the positions of the attribute pattern are inputs; what is proved is the brace matching and the span-by-span blanking.
- BoundaryCheck.Validate: TOML parsing, the catalog's size limit and its key set are not modelled.
- BoundedInput.StrictJsonlLoad: parsing one record is a function from bytes; its own limits and duplicate-key checks are not modelled.
- Evidence.AggregateEvidence: error texts are one constructor per kind of error, and the report's echoed fields are not modelled; each lane carries its name instead of being keyed by it.
- EventSequences.AcceptExchanges: the field checks of one playstate exchange (`validate_playstate_exchange`) are a predicate on the row.
- EventSequences.ValidateObservations: reading the JSON lines and normalizing media paths happen before; each observation is already classified.
- Extraction.ExtractArtifact: ZIP reading, symbolic links at the destination and partial copies are not modelled; a member comes with its name split into parts and its name and mode already judged ordinary or not.
- DiffFiles.ParseUnifiedDiff: lines are given; the further separators at which Python's `splitlines` cuts are not modelled, so a path or line that contains one is outside the model.
- BatchFrames.RequireCommittedSource: the commit and inventory checks before the response are left out, as is Python's limit on the length of integers.
- ProfilePattern.ValidateProfilePatternName: Python's limit on the length of integers is left out.
- PromotionAuthority.ContainerAuthority: a paginated inventory is one read, and an inventory and a single lookup are assumed to agree when made at the same instant.
- PromotionAuthority.ReleaseIdentity: the URL fields of the answers are not modelled.
- Promotion.CollectAuthority: nothing is promised about facts that a lookup read and its result does not fix, because they can change unseen; the lookup deadline and the recorded observation files are not modelled.
- PromotionOperation.Promote: the registry assignment itself belongs to another tool; the model lets it call the callback any number of times and swallow its exceptions.
- ReleaseAuthority.AuthorizeRelease: the candidate lookup is one procedure; its own before-and-after check of the producing run is not modelled.
- CheckLookups.ChecksHoldMeans: a listing is read aspect by aspect; statuses, repositories, authorship and page limits are folded into whether a query is answered, and pending is not told from failed.
- ReleasedSource.SubjectIsRead: the states, repositories and syntax checks of the answers are folded into whether a query is answered.
- Analysis.AnalyzeCoverage: report texts and reading sources from Git are not modelled.
- DiffMeaning.ValidateSourceBindings: resolving a path and reading its lines is a function from the path.
- CriticalPolicy.MergeCriticalPathPolicies: parsing a policy file, validating targets and the version records are not modelled.
- TestItems.InlineCfgTestModuleLines: `\s` in the module pattern uses the same class of white space as `isspace`.
- All subprocess, Git, Cargo, Docker, network and file-system calls, and the parsing of JSON, TOML and command lines.
- `lexical_non_coverable_lines`, a list of regular expressions with no meaning to prove against.
- The field-by-field schema validators of the remaining scripts, version and freshness checks, and report writing.
- The Rust crates.
