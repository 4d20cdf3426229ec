# Directory text search: a verified model of the search pipeline

The plugin's tool window searches the regular files under a directory for a literal string. For every occurrence it lists `path: line:column`. This project models that pipeline in Dafny and proves the following.

- **Validation.** The guards in `onStart` trim the directory text. They refuse an empty directory or an empty query, and a path that is not a directory.
- **Single-file matcher.** The loop in `processFile` calls `indexOf(query)`, then keeps calling `indexOf(query, index + 1)`. `IndexOf` models the JVM's `String.indexOf`, which counts in UTF-16 code units. The loop reports every offset at which the query occurs, overlapping ones included, in increasing order. `Occurrences` is the brute-force list of those offsets.
- **Line-offset index.** A single pass fills an `IntArray` with the offsets of the `'\n'` characters and keeps a fill counter. The model proves the array holds exactly those offsets, strictly increasing.
- **Locate.**
  - `countLineBreaksBefore` is a binary search that counts the entries strictly below an offset.
  - The 1-based line and column computed from that count are the position reached by reading the text one code unit at a time (`Scan`).
  - An offset holding a `'\n'` belongs to the line that newline ends.
- **Orchestration.** Files are processed one after another in the order of the walk. A file that cannot be read reports nothing and does not stop the run. Results come file by file, and within a file in offset order.

Modules:

- `Wrappers`: `Option` / `Result`.
- `Utf16`: a text is a sequence of 16-bit code units, as a Kotlin `String` is. Offsets, lengths and columns count code units, so a character outside the Basic Multilingual Plane counts as two.
- `Matcher`: `IndexOf`, `Occurrences`.
- `LineIndex`: `Scan`, `Breaks`, `BuildLineBreaks`, `CountLineBreaksBefore`, `Locate`.
- `Validation`: Kotlin's `trim` and the `onStart` guards.
- `Session`: `ProcessFile`, `RunSearch`, `StartSearch`, and the properties of a whole run.

The arrays and loops of the source are kept as they are:

- `BuildLineBreaks` fills a fresh `array<int>` with a counter.
- `CountLineBreaksBefore` keeps the `lo`/`hi`/`ans` window.
- `ProcessFile` runs the `while (index >= 0)` loop.

Each method is proved against a specification function: `Breaks`, `CountBelow`, `Scan` or `Occurrences`.

I/O and library calls become parameters:

- The directory walk is a function from the trimmed directory to a list of `SourceFile(path, content)`. `content` is `None` when reading the file as text fails.
- `Files.isDirectory` is a predicate.
- `basePath.relativize(file).toString()` is a function that returns `None` where it would throw inside the `try`.
- The project base path is an `Option<string>`.

## Model

All source paths are `intellij-plugin/src/main/kotlin/com/example/textsearch/SearchToolWindowPanel.kt`.

| member | source | states |
|---|---|---|
| Matcher.IndexOf | intellij-plugin/src/main/kotlin/com/example/textsearch/SearchToolWindowPanel.kt:130 | For a non-empty query, the result is the least offset `>= from` where the query occurs, or -1 when no offset `>= from` has an occurrence. An empty query is found at `from` clamped to between 0 and the text length. |
| Matcher.Occurrences | intellij-plugin/src/main/kotlin/com/example/textsearch/SearchToolWindowPanel.kt:130-157 | Reference list of match offsets: every entry starts at or after `from`, and the whole match fits inside the text. |
| Matcher.OccurrencesExact | intellij-plugin/src/main/kotlin/com/example/textsearch/SearchToolWindowPanel.kt:141-157 | An offset is listed exactly when the query occurs there, overlaps included. |
| Matcher.OccurrencesIncreasing | intellij-plugin/src/main/kotlin/com/example/textsearch/SearchToolWindowPanel.kt:141-157 | The listed offsets are strictly increasing. |
| Matcher.IndexOfFirstOccurrence | intellij-plugin/src/main/kotlin/com/example/textsearch/SearchToolWindowPanel.kt:130-131 | `indexOf(query, from)` is -1 exactly when no occurrence remains. Otherwise it is the head of the remaining occurrences, and the rest start after it. |
| Matcher.EmptyQueryStalls | intellij-plugin/src/main/kotlin/com/example/textsearch/SearchToolWindowPanel.kt:156 | With an empty query, `indexOf` from one past the end returns the text length. The loop would therefore never end, which is why a search needs a non-empty query. |
| LineIndex.Breaks | intellij-plugin/src/main/kotlin/com/example/textsearch/SearchToolWindowPanel.kt:133-139 | Reference list of `'\n'` offsets: each entry is a '\n' inside the prefix, and there are at most as many entries as characters. |
| LineIndex.BreaksComplete | intellij-plugin/src/main/kotlin/com/example/textsearch/SearchToolWindowPanel.kt:135-138 | Every '\n' in the prefix is recorded. |
| LineIndex.BreaksCount | intellij-plugin/src/main/kotlin/com/example/textsearch/SearchToolWindowPanel.kt:134-138 | The number of entries equals the number of '\n' characters (multiset count). |
| LineIndex.BreaksIncreasing | intellij-plugin/src/main/kotlin/com/example/textsearch/SearchToolWindowPanel.kt:135-138 | The entries are strictly increasing. |
| LineIndex.CountBelowAtSplit | intellij-plugin/src/main/kotlin/com/example/textsearch/SearchToolWindowPanel.kt:168-175 | At a split point, all entries before it are below `x` and all from it on are at least `x`. That split point equals the brute-force count of entries below `x`. |
| LineIndex.BreaksOfPrefix | intellij-plugin/src/main/kotlin/com/example/textsearch/SearchToolWindowPanel.kt:135-138 | The breaks before `k` are the leading entries of the breaks before `n`. Every later entry is `>= k`. |
| LineIndex.BreaksBefore | intellij-plugin/src/main/kotlin/com/example/textsearch/SearchToolWindowPanel.kt:142 | The number of entries strictly below `index` is the number of '\n' characters before `index`, and those entries come first. |
| LineIndex.ScanByBreaks | intellij-plugin/src/main/kotlin/com/example/textsearch/SearchToolWindowPanel.kt:142-144 | By a scan one code unit at a time, the line is one plus the number of '\n' characters read. The column is the distance from one past the last of them (or from 0), plus one. |
| LineIndex.BuildLineBreaks | intellij-plugin/src/main/kotlin/com/example/textsearch/SearchToolWindowPanel.kt:133-139 | Allocates an array of the text's length. Its first `count` entries are exactly the '\n' offsets in order, and `count` is the number of '\n' code units in the text. |
| LineIndex.CountLineBreaksBefore | intellij-plugin/src/main/kotlin/com/example/textsearch/SearchToolWindowPanel.kt:160-176 | For sorted entries, the result lies in `[0, count]` and splits them: everything before it is `< index`, everything from it on is `>= index`. It equals the brute-force count. Every `mid` read is in bounds, and the loop terminates. |
| LineIndex.Locate | intellij-plugin/src/main/kotlin/com/example/textsearch/SearchToolWindowPanel.kt:142-144 | Line and column are `>= 1` and equal the scanned position of `index`. For a line after the first, `lineBreaks[line - 2]` is in bounds and below `index`. The next entry, if any, is `>= index`, so that entry is the last break before `index`. |
| LineIndex.BreaksSorted | intellij-plugin/src/main/kotlin/com/example/textsearch/SearchToolWindowPanel.kt:135-138 | The recorded offsets are in order, which the binary search at lines 160-176 relies on. |
| LineIndex.LineOfCount | intellij-plugin/src/main/kotlin/com/example/textsearch/SearchToolWindowPanel.kt:142-144 | With `n` breaks strictly below `index`, the scanned position of `index` is line `n + 1`. Its column is the distance from one past break `n - 1` (or from 0), plus one. |
| LineIndex.BreakOffsetEndsItsLine | intellij-plugin/src/main/kotlin/com/example/textsearch/SearchToolWindowPanel.kt:168 | For an offset holding '\n', the strict count below it indexes that very break. The offset's line is that count plus one, which is the line the newline ends. |
| Validation.IsWhitespace | intellij-plugin/src/main/kotlin/com/example/textsearch/SearchToolWindowPanel.kt:68 | Kotlin's `Char.isWhitespace` on one code unit: the ASCII controls 0x09-0x0D and 0x1C-0x1F, and every Unicode space, line or paragraph separator. |
| Validation.LeadingBlanks | intellij-plugin/src/main/kotlin/com/example/textsearch/SearchToolWindowPanel.kt:68 | The first non-whitespace index at or after `i`: everything skipped is whitespace, and the character there is not. |
| Validation.TrailingEnd | intellij-plugin/src/main/kotlin/com/example/textsearch/SearchToolWindowPanel.kt:68 | The end with trailing whitespace dropped: everything dropped is whitespace, and the last kept character is not. |
| Validation.Trim | intellij-plugin/src/main/kotlin/com/example/textsearch/SearchToolWindowPanel.kt:68 | `trim()` never lengthens the text, and a non-empty result starts and ends with a non-whitespace code unit. |
| Validation.TrimIsInnerSlice | intellij-plugin/src/main/kotlin/com/example/textsearch/SearchToolWindowPanel.kt:68 | `trim()` keeps a contiguous slice, and all that it drops on either side is whitespace. A non-empty result has non-whitespace at both ends. |
| Validation.TrimBlank | intellij-plugin/src/main/kotlin/com/example/textsearch/SearchToolWindowPanel.kt:68-70 | The trimmed text is empty exactly when every character is whitespace. |
| Validation.Validate | intellij-plugin/src/main/kotlin/com/example/textsearch/SearchToolWindowPanel.kt:68-79 | The guards in their order. An accepted request carries the trimmed directory and the query, both non-empty, and the directory exists. A refusal is missing input exactly when the trimmed directory or the query is empty. A not-a-directory refusal names the trimmed path, which is not a directory. |
| Validation.ValidateAccepts | intellij-plugin/src/main/kotlin/com/example/textsearch/SearchToolWindowPanel.kt:68-79 | A request passes exactly when three things hold: the directory text has a non-whitespace character, the query is non-empty, and the trimmed path is a directory. A passing request carries the query and the trimmed, non-empty path. |
| Validation.ValidateRejectsMissingInput | intellij-plugin/src/main/kotlin/com/example/textsearch/SearchToolWindowPanel.kt:68-73 | A request is refused as missing input exactly when the query is empty or the directory text is all whitespace. |
| Validation.ValidateRejectsMissingDirectory | intellij-plugin/src/main/kotlin/com/example/textsearch/SearchToolWindowPanel.kt:75-79 | A request is refused as not a directory exactly when both inputs are present and the trimmed path is not a directory. The refusal names the trimmed path. |
| Session.DisplayPath | intellij-plugin/src/main/kotlin/com/example/textsearch/SearchToolWindowPanel.kt:145-152 | If there is a base path and relativizing succeeds, the relative path is shown. In every other case the file's own path is shown. |
| Session.Locations | intellij-plugin/src/main/kotlin/com/example/textsearch/SearchToolWindowPanel.kt:141-155 | One result per offset, in the same order, each at the scanned position of its offset. |
| Session.LocationsSnoc | intellij-plugin/src/main/kotlin/com/example/textsearch/SearchToolWindowPanel.kt:155 | Reporting one more offset appends exactly its result. |
| Session.ConcatMapAppend | intellij-plugin/src/main/kotlin/com/example/textsearch/SearchToolWindowPanel.kt:89-93 | Concatenating per-element results splits at any boundary. |
| Session.ProcessFile | intellij-plugin/src/main/kotlin/com/example/textsearch/SearchToolWindowPanel.kt:122-158 | The reported list is the file's results: nothing for an unreadable file. For a readable one, the display path with the scanned line and column of every occurrence of the query, in increasing offset order. |
| Session.ReportedStart | intellij-plugin/src/main/kotlin/com/example/textsearch/SearchToolWindowPanel.kt:130-131 | Before the loop, with a first match found, nothing is reported yet and every occurrence is still pending, the first being the one found. |
| Session.NothingReportedYet | intellij-plugin/src/main/kotlin/com/example/textsearch/SearchToolWindowPanel.kt:130-141 | With every occurrence pending and the first one found, the loop invariant holds with nothing reported. |
| Session.ReportedStep | intellij-plugin/src/main/kotlin/com/example/textsearch/SearchToolWindowPanel.kt:141-156 | Reporting the match at `index` and searching again from `index + 1` keeps the loop invariant. |
| Session.LoopStep | intellij-plugin/src/main/kotlin/com/example/textsearch/SearchToolWindowPanel.kt:156 | Searching again from one past the current match finds the next pending occurrence, or -1 exactly when none is left. |
| Session.ReportedAll | intellij-plugin/src/main/kotlin/com/example/textsearch/SearchToolWindowPanel.kt:141 | When `index` becomes -1, every occurrence has been reported. |
| Session.RunSearch | intellij-plugin/src/main/kotlin/com/example/textsearch/SearchToolWindowPanel.kt:89-94 | The run reports each file's results one after the other, in walk order. |
| Session.StartSearch | intellij-plugin/src/main/kotlin/com/example/textsearch/SearchToolWindowPanel.kt:67-95 | The outcome fails exactly when the guards refuse, with the same rejection, and then no search runs. Otherwise the query is non-empty and the outcome is the results over the walk of the trimmed directory. |
| Session.SearchResultsAppend | intellij-plugin/src/main/kotlin/com/example/textsearch/SearchToolWindowPanel.kt:89-93 | The results of a run split at any file boundary, earlier files first. |
| Session.SearchSkipsUnreadable | intellij-plugin/src/main/kotlin/com/example/textsearch/SearchToolWindowPanel.kt:124-128 | An unreadable file adds nothing. The results are those of the files before it followed by those of the files after it. |
| Session.NoMatchNoResults | intellij-plugin/src/main/kotlin/com/example/textsearch/SearchToolWindowPanel.kt:130-131 | A readable file reports nothing exactly when the query occurs nowhere in it. |
| Session.FileResultsExact | intellij-plugin/src/main/kotlin/com/example/textsearch/SearchToolWindowPanel.kt:130-156 | An offset is reported exactly when the query occurs there, overlaps included. The reported offsets are strictly increasing, each at its scanned position under the display path. |
| Session.TwoLineExample | intellij-plugin/src/main/kotlin/com/example/textsearch/SearchToolWindowPanel.kt:130-156 | Worked example: "foo" in `"foo\nbar foo\n"` is reported at 1:1 and 2:5. |
| Session.ExampleLocations | intellij-plugin/src/main/kotlin/com/example/textsearch/SearchToolWindowPanel.kt:142-144 | In the example text, offsets 0 and 8 lie at 1:1 and 2:5. |
| Session.ExampleOccurrences | intellij-plugin/src/main/kotlin/com/example/textsearch/SearchToolWindowPanel.kt:130-156 | In the example text, "foo" occurs at offsets 0 and 8 only. |
| Session.ExamplePositions | intellij-plugin/src/main/kotlin/com/example/textsearch/SearchToolWindowPanel.kt:142-144 | A scan of the example text reaches 1:1 at offset 0 and 2:5 at offset 8. |
| Session.SurrogatePairExample | intellij-plugin/src/main/kotlin/com/example/textsearch/SearchToolWindowPanel.kt:130-144 | Worked example: after U+1F600, the surrogate pair 0xD83D 0xDE00, "foo" is found at offset 2 and reported at 1:3. |
| Session.SurrogatePairOccurrences | intellij-plugin/src/main/kotlin/com/example/textsearch/SearchToolWindowPanel.kt:130 | In the surrogate-pair example, `indexOf` finds "foo" at offset 2, and that is its only occurrence. |
| Session.SurrogatePairPosition | intellij-plugin/src/main/kotlin/com/example/textsearch/SearchToolWindowPanel.kt:142-144 | In the surrogate-pair example, offset 2 is at line 1, column 3. |

## Left out

- Coroutines are not modelled: the `Job`, the `AtomicReference` swap in `currentJob`, `onCancel` with `cancelAndJoin`, and the `isActive` check before each file (lines 87-120). The model runs the files sequentially to completion. Cancelling part-way would report a prefix of `SearchResults`; that is not stated.
- File I/O is abstracted. `Files.walk`, its `isRegularFile` filter and `Files.readString` with the platform charset become the `walk` parameter, which yields each regular file's path and its decoded text as UTF-16 code units (or `None`). Walk order and charset decoding are whatever that function yields.
- `Paths.get` throwing `InvalidPathException` on a malformed directory string is not modelled. `isDirectory` is applied to the trimmed text directly.
- `Paths.get(base)` on the project base path (line 146) runs outside the `try` at lines 147-151. If it throws, the exception leaves `processFile` and ends the whole run. The model does not capture this. Its `relativize` parameter covers only the exceptions caught at line 149, where the file's own path is shown instead.
- A `Files.walk` stream that hits an unreadable subdirectory throws `UncheckedIOException` from the `forEach` at lines 89-93. That ends the run after the files already processed. The model's `walk` always yields a complete list, so a run that stops part-way is not modelled.
- `Path.relativize` and `Path.toString` are a function parameter. Path normalisation is not modelled.
- All Swing and IntelliJ UI is out: enabling and disabling fields, the `resultsModel` list, `invokeLater`, `JOptionPane` error dialogs and their message text. A rejection is returned as a `Rejection` value instead.
- The result string `"$relative: $lineNumber:$column"` is not built. Results are `MatchLocation(path, line, column)` values.
- Session.ProcessFile: does not state that no line index is allocated when the first `indexOf` fails (line 131). The early return is modelled, but the contract does not speak about allocation.
- Session.ProcessFile: requires a non-empty query. Its only caller, `onStart`, guarantees this. With an empty query the source loop never ends (Matcher.EmptyQueryStalls).
- LineIndex.CountLineBreaksBefore: requires only non-decreasing entries. This is weaker than the strictly increasing array the source hands it, so the method is proved under a looser precondition.
- LineIndex.CountLineBreaksBefore: models `(lo + hi) ushr 1` as exact halving of unbounded integers. That is equal for the non-negative `Int` values it sees. 32-bit overflow of the line-break count or of offsets is not modelled, since a `String` holds fewer than 2^31 code units.
- Trimming follows Kotlin's `CharSequence.trim()` with `Char.isWhitespace`. Java's `String.trim`, which strips every character up to U+0020, is not what the source calls.
- `SearchToolWindowFactory.kt` (tool-window registration) and the Gradle build files are not part of this model.
