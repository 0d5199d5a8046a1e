# pandaemonium: verified models of the hard cores

pandaemonium is a Go repository with a TOML engine (`pkg/toml`), concurrent queues and
request/response clients for language-model and tmux processes (`pkg/llm`, `pkg/tmux`), and fast byte
scanners (`internal/memchr`, the JSON skipper of `pkg/llm/codex`). This project models the parts of
them whose correctness is an argument over every input or every interleaving, and proves those
arguments in Dafny. `dafny verify dfyconfig.toml` checks everything.

How the parts are laid out:

- **TOML reading.** `TomlLexer` and `TomlDecoder` are the token machine as functions of a state,
  `TomlReader` is the mutable decoder object whose methods are tied to them, `TomlDecoderRuns` proves
  what every run of it keeps, and `TomlTokens` what kind and bytes of a token say of each other, with
  printed headers, keys and values read back as tokens; `TomlSpelled` reads back headers and keys of any
  spelling. `TomlSkip` proves that the hand-written structural skip lands where the
  token loop lands, in the same state, and `TomlSkipExact` exactly when it succeeds.
- **TOML documents.** `TomlTree` is the document tree and its growth, `TomlShape` says what stands at every
  address after a step, `TomlTables` has the redefinition rules and their reference semantics, `TomlRules`
  the reasons for every refusal, `TomlElements` and `TomlStale` compare them with rules that judge
  each array-of-tables element by itself, `TomlBuilder` is the object that applies them. `TomlDocument` and
  `TomlEditor` are the format-preserving editor: sorting and splicing of span operations, and the
  object that collects them. `TomlEdits` says when every edit is written, and `TomlParse` collects the
  entries from the token stream; `TomlWritten` says what it collects from a document written line by line.
- **TOML values.** `TomlString`, `TomlKey`, `TomlInteger`, `TomlDateTime`: parsers, printers and their
  round trips. `TomlEscapes`, `TomlKeyText` and `TomlCalendar` are the exact languages of string
  bodies, of dotted keys and of dates and times, by grammars of their own.
- **Queues and protocols.** `NotifyBuffer`, `NotificationRing`, `NotificationQueue`, `ProcessQueue`
  hold the in-place data structures as classes. `NotifyQueue`, `NotificationQueue`, `ProcessQueue`,
  `JsonRpc`, `TmuxClient` and `ControlProtocol` are transition systems. A step is one critical section
  or one channel operation, a run is any sequence of enabled steps by any number of threads, and the
  theorems quantify over all runs. `TmuxProtocol` is the line parser behind the tmux client.
- **Scanners.** `Memchr` is the word-at-a-time and vector-at-a-time search. `JsonScan` is the JSON
  skipper as functions, `JsonScanner` the object with its cursor, `JsonText`, `JsonSound` and
  `JsonTurn` relate it to the texts of RFC 8259.

Conventions: a Go byte in a text is a `char` with the byte's value; bytes searched by `Memchr` are
`bv8` and words `bv64`. Go's `int` is unbounded here, except in `TomlInteger`, where `uint64` and
`int64` arithmetic wraps explicitly. Errors are values (`Option`, `Result`, rejection reasons); error
texts and positions are not modelled. A blocked `select` is a thread in a waiting state.

Where the code does something other than one would expect, the model follows the code and a lemma
shows it:

- `TomlDecoderRuns.SpinExactly`: a CR that no LF follows, where a line end is due, makes `readToken`
  loop forever; `LoneCrSpins` is such a document, and the condition is exact.
- `TomlDecoderRuns.BomHidesHeader`: after a byte order mark a first-line header is read as an array.
- `TomlSkipExact.FastSkipExactly`: the token loop skips more than the structural scan, and the
  condition is exact. `TomlSkip.TokenSkipAcceptsMore` has mismatched brackets (`[}`),
  `TomlSkipExact.MissingCommaAccepted` elements without a comma (`[[][]]`), `MissingValueAccepted` a key
  without a value (`{a=}`), `ContainerKeyAccepted` a container in key position (`{[]}`), and
  `InlineCapMissed` an inline table one deeper than the nesting cap, which is well-formed TOML.
- `TomlTables.NulConfusesPaths`: a quoted key with a NUL collides with a dotted key; `CollideExactly` says
  which paths do.
- `TomlElements.StaleRecordsRefuse`: `[[a]] [a.b] [[a]] [[a.b]]` and `[[a]] [[a.b]] [[a]] [a.b]` are
  refused for what an earlier element of `a` holds; `TomlStale.ElementsDecide` says of the list of
  statements exactly which documents are.
- `TomlParse.StrayBracesLoseEdit`: keys in stray braces under a header become entries that share a
  line, and deleting one drops the replacement of the other; `DocumentLines` says exactly when entries
  share a line, and `DocumentEdits` exactly when every set of edits is written. Entries of one path on
  one line lose nothing (`TomlEdits.TwoOnALine`) unless the later one runs on.
- `TomlParse.PathKeyExactly`: an entry whose key starts with an empty segment is filed under another
  key than the one it is looked up by; `"".a` is filed under `a`.
- `TomlDateTime.TimeRoundTrip`: a time built without its seconds mark loses its seconds.
- `TomlDocument.EndsAtNewline`, `TomlEditor.GluedExample`: text inserted after an unterminated last line
  is glued to it: `a = 1` becomes `a = 1b = 2`.
- `TomlEditor.SetWritesEachTime`: setting a new path twice writes its line twice; `LinesPerPath` counts
  the lines of a path.
- `NotifyBuffer.BoundedFits`: below capacity two the bound of `PushBounded` can fail.
- `NotificationQueue.SecondConsumerStranded`, `ProcessQueue.SecondConsumerStranded`: with two
  consumers these queues can strand one of them; `ServedExactly`: only one consumer is always served.
- `ControlProtocol.DuplicateEscapes`: of two concurrent requests with one identifier, the close
  misses the first; `CloseReachesExactly` says of every run which handlers are reached.
- `JsonTurn.TurnIdFound`: the fast identifier scan gives up on a space after the colon, an escape, or
  an identifier that is not a string; the condition is exact.
- `JsonTurn.TrailingCommaAnswered`: the scan answers on a comma before the closing brace, and on
  duplicate names (the last one counts), where strict JSON has no answer; `AnswerIsDecoded` says exactly
  when its answer is the decoded one.

## Model

| member | source | states |
|---|---|---|
| TomlDecoder.AdvanceAgrees | pkg/toml/decoder.go:940-999 | moving the cached line and column over a block of bytes gives the line and column computed from scratch for the whole prefix |
| TomlDecoderRuns.LoopOk | pkg/toml/decoder.go:279-368 | every call keeps the flag discipline (a separator is due only inside a container; a value that must follow on the line excludes the other demands), stays in bounds, and a token lies inside what the call consumed |
| TomlDecoderRuns.LoopPos | pkg/toml/decoder.go:962-999 | after every call the cached line and column equal the ones recomputed from the start of the input, and so do the token's |
| TomlDecoderRuns.SkipSpacesStop | pkg/toml/decoder.go:370-409 | space skipping ends at the end of input or at a byte that is no blank and, unless a value must follow, no newline |
| TomlDecoderRuns.SpinExactly | pkg/toml/decoder.go:279-368 | a call loops without progress if and only if a line end is due and after blanks comes a CR that no LF follows |
| TomlDecoderRuns.AlwaysReturns | pkg/toml/decoder.go:279-368 | if each CR is followed by LF, every call returns a token, end of input or an error |
| TomlDecoderRuns.ErrorsAreSticky | pkg/toml/decoder.go:260-277 | once a call has failed, the call after any number of further calls fails, whether or not the error was stored |
| TomlDecoderRuns.StreamOrdered | pkg/toml/decoder.go:264-368 | the tokens of every run are ordered, disjoint, non-empty slices of the input |
| TomlDecoderRuns.StreamPositions | pkg/toml/decoder.go:932-999 | every token of a run reports the line and column recomputed from scratch |
| TomlDecoderRuns.StreamEnds | pkg/toml/decoder.go:264-368 | without lone CRs every token stream ends in end of input or an error |
| TomlDecoderRuns.DocumentTokens | pkg/toml/decoder.go:194-368 | all of this for every document read by a fresh decoder |
| TomlDecoderRuns.LineEndBeforeToken | pkg/toml/decoder.go:279-330 | after a complete top-level value or header the next token is a comment with the line end still due, or stands behind a newline |
| TomlDecoderRuns.LoneCrSpins | pkg/toml/decoder.go:370-409 | a concrete document on which the second call never returns |
| TomlDecoderRuns.BomHidesHeader | pkg/toml/decoder.go:1030-1034 | a header on the first line is read as an array start exactly when a byte order mark precedes it, and as the kind its brackets say otherwise |
| TomlTokens.StreamFits | pkg/toml/decoder.go:279-665 | the bytes of every token of every run are what its kind says: brackets their own byte, a table header `[` to `]` without a second bracket, an array-table header `[[` to `]]`, a comment from `#` to the line end, a key that is valid and has its equals sign, a value that is a valid string or a bare value |
| TomlTokens.KindDecided | pkg/toml/decoder.go:279-665 | the bytes of a token decide its kind, up to keys and values |
| TomlTokens.IterateKind | pkg/toml/decoder.go:340-366 | a token that is no bracket, header or comment is a value if and only if a value is expected |
| TomlTokens.HeaderToken | pkg/toml/decoder.go:617-739 | a printed header is read back as one token of its kind whose trimmed key parses to the path, whatever follows, if and only if the key is within the cap |
| TomlTokens.KeyToken | pkg/toml/decoder.go:443-493 | a printed key is read back as a key token whose text parses to the path, if and only if it is within the cap |
| TomlTokens.ScalarToken | pkg/toml/decoder.go:495-556 | a scalar is read back as a value token with exactly its text, unless it is a string over the cap: printed, literal and triple-quoted strings, and bare values up to the first delimiter or over the space of a date and time |
| TomlTokens.LineTokens | pkg/toml/decoder.go:443-556 | the line `key = value` of the printer is read back as its key token and its value token |
| TomlSpelled.SpelledHeader | pkg/toml/decoder.go:617-739 | a header with a key of any spelling within the cap is one token of its kind, whatever follows |
| TomlSpelled.HeaderParses | pkg/toml/value.go:1021-1037 | the key between the brackets of such a header parses to its parts |
| TomlSpelled.SpelledKey | pkg/toml/decoder.go:443-493 | a key of any spelling within the cap is one key token that parses to its parts |
| TomlReader.Decoder.constructor | pkg/toml/decoder.go:194-229 | a new decoder stands in the start state, past a byte order mark |
| TomlReader.Decoder.AdvanceBytes | pkg/toml/decoder.go:966-999 | the object moves to the position-tracked state of the specification |
| TomlReader.Decoder.SkipSpaces | pkg/toml/decoder.go:370-409 | the loop reaches the state of the recursive specification |
| TomlReader.Decoder.ReadComment | pkg/toml/decoder.go:411-441 | comment token and state as specified, from any state |
| TomlReader.Decoder.ReadKey | pkg/toml/decoder.go:443-493 | key token and state as specified, from any state |
| TomlReader.Decoder.ReadScalar | pkg/toml/decoder.go:495-556 | value token and state as specified, from any state |
| TomlReader.Decoder.ReadArrayStart | pkg/toml/decoder.go:558-569 | opens an array: depth, container stack and flags as specified |
| TomlReader.Decoder.ReadArrayEnd | pkg/toml/decoder.go:571-586 | closes an array: depth, container stack and flags as specified |
| TomlReader.Decoder.ReadInlineStart | pkg/toml/decoder.go:588-598 | opens an inline table: depth, container stack and flags as specified |
| TomlReader.Decoder.ReadInlineEnd | pkg/toml/decoder.go:600-615 | closes an inline table: depth, container stack and flags as specified |
| TomlReader.Decoder.ReadHeader | pkg/toml/decoder.go:617-739 | both header tokens and the state after them as specified |
| TomlReader.Decoder.DispatchByte | pkg/toml/decoder.go:323-368 | one pass of the dispatch switch as specified |
| TomlReader.Decoder.ReadToken | pkg/toml/decoder.go:279-368 | the loop returns the specified outcome and leaves the specified state |
| TomlReader.Decoder.SkipTokens | pkg/toml/value.go:498-520 | the depth-counting token loop reaches the state of the recursive token skip |
| TomlReader.Decoder.ScanStructural | pkg/toml/value.go:271-389 | the frame-stack loop ends where the recursive frame machine ends |
| TomlReader.Decoder.SkipStructuralValue | pkg/toml/value.go:226-269 | the fast skip leaves the state, or reports the failure, of its specification |
| TomlSkip.CrossSpace | pkg/toml/value.go:391-413 | space and comments skipped structurally are space and comment tokens to the token loop, with the same flags after them |
| TomlSkip.DispatchSim | pkg/toml/value.go:271-389 | one significant byte: if the frame machine steps, the token loop steps, and the simulation relation holds again |
| TomlSkip.RunSim | pkg/toml/value.go:271-389 | whole runs of the frame machine are matched by the token loop |
| TomlSkip.FastSkipIsTokenSkip | pkg/toml/value.go:226-389 | whenever the structural skip succeeds, the token-by-token skip succeeds from the same state and ends in the identical decoder state: offset, line, column, flags, depths, stack |
| TomlSkip.TokenSkipAcceptsMore | pkg/toml/value.go:498-520 | the converse fails: a value with mismatched brackets is skipped by tokens and refused by the scan |
| TomlSkipExact.KeyBack | pkg/toml/value.go:462-496 | every key the token scanner accepts, quoted and dotted ones included, the structural scanner accepts |
| TomlSkipExact.SpaceBack | pkg/toml/value.go:391-413 | where the structural scanner finds bad space or a bad comment, the tokens do not go on either |
| TomlSkipExact.DispatchBack | pkg/toml/value.go:271-389 | one significant byte: if the next token fits the innermost frame, the frame machine steps |
| TomlSkipExact.RunBack | pkg/toml/value.go:271-389 | if the tokens close the open frames, each one fitting, the frame machine runs to the end |
| TomlSkipExact.ConformsMeans | pkg/toml/value.go:498-520 | fitting along the run is success of the token loop plus a grammar of the token kinds and commas it read |
| TomlSkipExact.FastSkipExactly | pkg/toml/value.go:210-520 | from every state about to read a value: the structural skip succeeds if and only if the value starts with a bracket, the token-by-token skip succeeds, and its tokens fit the frames: closers match, keys have values, containers stand where a value is due with commas between elements, inline tables within the cap |
| TomlSkipExact.MissingCommaAccepted | pkg/toml/value.go:345-355 | `[[][]]` is skipped by tokens and refused by the scan |
| TomlSkipExact.InlineCapMissed | pkg/toml/value.go:278-285 | `{a={}}` under a nesting cap of one is skipped by tokens and refused by the scan |
| TomlSkipExact.MissingValueAccepted | pkg/toml/value.go:368-374 | `{a=}` is skipped by tokens and refused by the scan |
| TomlSkipExact.ContainerKeyAccepted | pkg/toml/value.go:356-367 | `{[]}` is skipped by tokens and refused by the scan |
| TomlTree.LeavesStay | pkg/toml/value.go:1348-1426 | along any growth every address stays occupied and every leaf keeps its value |
| TomlTree.EarlierElementsFrozen | pkg/toml/value.go:1371-1405 | along any growth an array-of-tables element that another follows keeps its whole subtree |
| TomlTree.EnsureTableGrows | pkg/toml/value.go:1348-1369 | opening a table only adds to the tree |
| TomlTree.EnsureTableOpens | pkg/toml/value.go:1348-1369 | after opening, the path leads to a table, and opening again changes nothing |
| TomlTree.EnsureTableFails | pkg/toml/value.go:1348-1369 | opening fails if and only if some prefix of the path holds a value that is neither a table nor an array of tables |
| TomlTree.AppendArrayTableGrows | pkg/toml/value.go:1371-1405 | an array header only adds to the tree |
| TomlTree.AppendArrayTableAppends | pkg/toml/value.go:1371-1405 | exactly one empty table is appended behind the existing elements |
| TomlTree.AppendArrayTableFails | pkg/toml/value.go:1371-1405 | an array header fails if and only if its path holds something that is no array, or a proper prefix a value that cannot be entered |
| TomlTree.AssignUniqueGrows | pkg/toml/value.go:1407-1426 | a key assignment only adds to the tree |
| TomlTree.AssignUniqueStores | pkg/toml/value.go:1407-1426 | what an assignment succeeds on was free, and it stores exactly the value there |
| TomlTree.AssignUniqueFails | pkg/toml/value.go:1407-1426 | assignment fails if and only if, walking plain tables only, the key is taken or a proper prefix of it holds a value that is no table |
| TomlTree.AssignUnderFails | pkg/toml/value.go:164-201 | the same in the current table |
| TomlTree.AssignUnderStores | pkg/toml/value.go:1407-1426 | the same for a key below the current table, addressed from the root |
| TomlTree.AssignInPlace | pkg/toml/value.go:164-201 | assigning through the root is assigning in the table the current-table reference designates |
| TomlTree.CurrentIsFound | pkg/toml/value.go:122-163 | the current table is where the path of its header leads |
| TomlShape.ShapesDecide | pkg/toml/value.go:1348-1426 | what stands at every address determines the tree |
| TomlShape.EnsureTableExactly | pkg/toml/value.go:1348-1369 | after a table header every address holds what it held, the missing tables on the way are there, and nothing else |
| TomlShape.AppendArrayTableExactly | pkg/toml/value.go:1371-1405 | after an array header the array is one longer, its last element is an empty table, the missing tables before it are there, and nothing else changed |
| TomlShape.AssignUniqueExactly | pkg/toml/value.go:1407-1426 | after a key the value stands at its address, the missing plain tables before it are there, and nothing else changed |
| TomlShape.AssignUnderExactly | pkg/toml/value.go:164-201 | the same in the current table, addressed from the root |
| TomlTables.EncodeInjective | pkg/toml/value.go:1333-1342 | joined path keys of NUL-free paths are equal only for equal paths |
| TomlTables.ContextTextInjective | pkg/toml/value.go:1273-1281 | two contexts of one path have equal texts only if they are equal |
| TomlTables.ContextAdvances | pkg/toml/value.go:1273-1281 | when epochs grow, a path's declaration context does not move backwards in the order of array depth and element number |
| TomlTables.LatestIsEnough | pkg/toml/value.go:88-96 | a path is marked in its present context under the latest-only map exactly when the whole history says so |
| TomlTables.StepMatches | pkg/toml/value.go:76-201 | one header or key: latest-only bookkeeping and full history accept or reject alike, for the same reason, and stay related |
| TomlTables.LatestContextSuffices | pkg/toml/value.go:53-208 | on every document with NUL-free keys, remembering only the latest context per joined key accepts, rejects and builds exactly what remembering every (path, context) pair would |
| TomlTables.RunGrows | pkg/toml/value.go:53-208 | every accepted run only adds to the tree |
| TomlTables.NothingIsOverwritten | pkg/toml/value.go:53-208 | for the rest of any accepted run every leaf keeps its address and value, and every element of an array of tables that another follows keeps its subtree |
| TomlTables.NulConfusesPaths | pkg/toml/value.go:1333-1342 | without the NUL condition a quoted key and a dotted key collide and the second header is refused |
| TomlTables.CollideExactly | pkg/toml/value.go:1333-1342 | two paths have one string key if and only if they agree once every segment is cut at its NULs |
| TomlRules.NextJudged | pkg/toml/value.go:90-201 | after any accepted document the next header or key is accepted if and only if no reason speaks against it, each reason a condition on the earlier statements or the tree; the error returned is one that does |
| TomlRules.RefusedExactly | pkg/toml/value.go:90-201 | a document is accepted if and only if there is no reason against any of its statements, and is refused with a reason against one of them |
| TomlElements.OpenLinked | pkg/toml/value.go:119-149 | no record made before a new array-of-tables element is taken for one of the new element |
| TomlElements.StepAgrees | pkg/toml/value.go:80-207 | what the source accepts the per-element rules accept, with the same tree; where they differ, a question of the check is answered differently |
| TomlStale.PlaceKept | pkg/toml/value.go:119-149 | a path lies in the elements it lay in at an earlier statement if and only if no array header on the way to it came since |
| TomlStale.ContextKept | pkg/toml/value.go:1273-1281 | the source's declaration context of a path is what it was at an earlier statement if and only if no array header on the way came since that no longer array on the path hides |
| TomlStale.OpenedMeans | pkg/toml/value.go:85-87 | a path is an array in its present element if and only if no element around it was opened since its last array header |
| TomlStale.ElementStep | pkg/toml/value.go:80-207 | after any accepted statements, the next is accepted if and only if rules that look only at the elements around it accept it and it does not fall under a stale record: one of its path behind which a new element was opened on the way |
| TomlStale.ElementsDecide | pkg/toml/value.go:53-207 | a document with NUL-free keys is accepted if and only if it is well formed element by element and no statement falls under a stale record of the statements before it, and then has the tree of the per-element rules |
| TomlElements.StaleRecordsRefuse | pkg/toml/value.go:85-125 | two documents that are well formed element by element and refused |
| TomlBuilder.Builder.constructor | pkg/toml/value.go:53-75 | a new builder holds the empty document |
| TomlBuilder.Builder.FindContext | pkg/toml/value.go:1273-1281 | the loop finds the context of the longest array-table prefix |
| TomlBuilder.Builder.ClosedInlinePrefix | pkg/toml/value.go:1283-1291 | true exactly when some prefix is closed in its present context |
| TomlBuilder.Builder.Table | pkg/toml/value.go:76-114 | a table header makes the specified step or is rejected for the specified reason, leaving the state unchanged |
| TomlBuilder.Builder.ArrayTable | pkg/toml/value.go:115-163 | an array-table header makes the specified step or is rejected for the specified reason |
| TomlBuilder.Builder.CheckDottedKey | pkg/toml/value.go:182-192 | the first offending prefix of a dotted key decides the rejection |
| TomlBuilder.Builder.MarkDottedKeyTables | pkg/toml/value.go:1322-1331 | every proper prefix below the current table is marked in its present context |
| TomlBuilder.Builder.MarkClosedValuePaths | pkg/toml/value.go:1293-1320 | exactly the inline tables and arrays of the value, at their paths, are marked closed, in some visiting order |
| TomlBuilder.Builder.MarkClosedEntries | pkg/toml/value.go:1293-1320 | the same for the entries of one inline table |
| TomlBuilder.Builder.Assign | pkg/toml/value.go:164-201 | a key/value pair makes the specified step or is rejected for the specified reason |
| TomlDocument.LineSpan | pkg/toml/document.go:708-728 | the span runs from after the previous newline to past the next one (CRLF taken whole) and contains the arguments |
| TomlDocument.LineBreakExactly | pkg/toml/document.go:708-728 | the line ending a value and the line of a later key are ordered and disjoint if and only if a newline byte stands between the two |
| TomlDocument.EndsAtNewline | pkg/toml/document.go:708-728 | a line span ends behind a newline if and only if a newline follows the value, so only then does text inserted there start a line |
| TomlDocument.InsertKeepsTexts | pkg/toml/document.go:346-354 | sorting one operation into place changes no inserted and no replaced text at any position |
| TomlDocument.SortKeepsMeaning | pkg/toml/document.go:346-354 | stable sorting of compatible operations does not change the edited text they mean |
| TomlDocument.SortedIsChained | pkg/toml/document.go:346-354 | sorted compatible operations each start at or after the end of the one before |
| TomlDocument.SpliceIsRender | pkg/toml/document.go:355-366 | on such operations the cursor loop skips none and produces, position by position, insertions, then replacement, then the original byte unless covered |
| TomlDocument.SpliceMeaning | pkg/toml/document.go:346-366 | sort and splice together produce exactly the edited text of the unsorted operations |
| TomlDocument.SpliceIsWritten | pkg/toml/document.go:355-366 | for every list of operations the loop writes the edited text of exactly those its guard does not skip |
| TomlDocument.NothingSkipped | pkg/toml/document.go:346-366 | the guard of the cursor loop skips none of the sorted operations if and only if no two operations overlap |
| TomlDocument.ReplacementLands | pkg/toml/document.go:315-318 | a replacement puts its own text and nothing else where its span starts |
| TomlEditor.EditsCompatible | pkg/toml/document.go:308-345 | with ordered disjoint line spans that contain their values, the operations of any set of edits lie in the text and never overlap |
| TomlEditor.CoveredMeans | pkg/toml/document.go:308-319 | an original byte is missing from the output exactly when a deleted line or a replaced value holds it |
| TomlEditor.LinesDecide | pkg/toml/document.go:308-319 | no two operations overlap, whatever the replacements and deletions, if and only if no two entries share a line |
| TomlEditor.ReplacementLost | pkg/toml/document.go:308-366 | of two entries on one line, deleting the first drops the replacement of the second |
| TomlEditor.LinesPerPath | pkg/toml/document.go:320-345 | a new path gets one line per call that inserted it, or none once it is not pending or not printable, so exactly one if and only if it is pending, printable and was inserted once |
| TomlEditor.LinesInText | pkg/toml/document.go:320-345 | at every position the edited text holds, one after the other, the lines `key = value` of exactly the insertions that land there, after a newline where the text was not ended |
| TomlEditor.AppendedText | pkg/toml/document.go:320-336 | new paths are written behind the text in the order they were set, and each line starts a line |
| TomlEditor.AppendedOne | pkg/toml/document.go:320-336 | one new path adds its line to an empty or ended text, and a newline and its line to any other |
| TomlEditor.SetWritesEachTime | pkg/toml/document.go:211-241 | a new path set n times stands n times at the end of the output, each time as `key = value` and a newline |
| TomlEditor.InsertedAfter | pkg/toml/document.go:337-345 | text inserted after an entry lands at the end of its line and starts a line if and only if a newline follows the entry's value |
| TomlEditor.InsertedTextIsGlued | pkg/toml/document.go:337-345 | on an unterminated last line it follows the value's line without a newline |
| TomlEditor.GluedExample | pkg/toml/document.go:337-345 | `b` inserted after `a = 1` gives `a = 1b = 2` |
| TomlEditor.Document.constructor | pkg/toml/document.go:110-114 | a document over given entries has no edits, and its index names the last entry of each path |
| TomlEditor.Document.Get | pkg/toml/document.go:179-207 | returns the visible value of the path; caching it changes no visible value |
| TomlEditor.Document.Set | pkg/toml/document.go:211-241 | succeeds exactly when the path is well formed and the value can be printed; afterwards the path shows the value and every other path what it showed; replacements and deletions stay disjoint; on failure nothing changes |
| TomlEditor.Document.InsertAfter | pkg/toml/document.go:245-271 | succeeds exactly for an existing, undeleted anchor and a well-formed path, and changes only the pending value of that path |
| TomlEditor.Document.Delete | pkg/toml/document.go:274-296 | succeeds exactly for an existing or pending path; afterwards it shows nothing and every other path what it showed |
| TomlEditor.Document.Bytes | pkg/toml/document.go:299-367 | the output is the sorted splice, which is the original text with exactly the operations applied that are not skipped; none is skipped if and only if none overlap; disjoint lines are enough for that |
| TomlEditor.EntryOpsOf | pkg/toml/document.go:308-319 | the loop collects one operation per deleted line or replaced value, in entry order |
| TomlEditor.SpliceAll | pkg/toml/document.go:355-366 | the cursor loop computes the recursive splice |
| TomlEdits.SweptCovers | pkg/toml/document.go:308-366 | deleting a path with several lines removes every byte of them if no skipped line leaves a tail |
| TomlEdits.LoopRuns | pkg/toml/document.go:308-366 | among edits of paths on different lines the loop skips exactly the deletions that start before the cursor of their own path's deletions, and changes no text |
| TomlEdits.SeparateSuffices | pkg/toml/document.go:299-367 | if paths never share a line and no skipped line leaves a tail, the output is the original text with exactly the edits |
| TomlEdits.SharedLineLoses | pkg/toml/document.go:299-367 | of two paths on one line, a deletion and a replacement do not both come out |
| TomlEdits.TailStays | pkg/toml/document.go:299-367 | a skipped line that runs past the cursor leaves text of a deleted path |
| TomlEdits.EditsDecide | pkg/toml/document.go:299-367 | every set of replacements and deletions comes out as the original text with exactly those edits if and only if entries of different paths never share a line and no skipped line of a path leaves a tail |
| TomlEdits.TwoOnALine | pkg/toml/document.go:299-367 | two entries on one line meet that condition exactly if they are of one path and their lines end together |
| TomlParse.PathKeyExactly | pkg/toml/document.go:432-505 | the key an entry is filed under is the key its path is looked up by if and only if the first segment is not empty |
| TomlWritten.FiledUnder | pkg/toml/document.go:541-559 | an entry is filed under the path of its table followed by its own |
| TomlWritten.WrittenIsIndexed | pkg/toml/document.go:106-168 | a document of headers and keys with scalars is indexed exactly: one entry per key, under the path of the last header and its own, with the span of its value and of its line |
| TomlWritten.DocumentIndexed | pkg/toml/document.go:106-168 | the same from a fresh decoder |
| TomlParse.LoopShape | pkg/toml/decoder.go:279-368 | a token that completes a value leaves a line end due exactly when it leaves no container open; only such a token empties the container stack; a key changes no container and stands on one line with its equals sign |
| TomlParse.ValueDue | pkg/toml/document.go:377-425 | behind every value `readValue` takes, mismatched brackets included, a line end is due unless a container is open |
| TomlParse.ParseItems | pkg/toml/document.go:106-163 | the entries of a document are ordered, each line holds its key and value, a value starts on its key's line, and a key read outside containers is separated by an LF from the entry before it |
| TomlParse.DocumentLines | pkg/toml/document.go:106-163 | no two entries of a parsed document share a line if and only if every key read inside an open container has a newline between it and the entry before it |
| TomlParse.DocumentEdits | pkg/toml/document.go:106-367 | for every parsed document: every set of replacements and deletions comes out as the original text with exactly those edits if and only if entries of different paths never share a line and no skipped line of a path leaves a tail |
| TomlParse.StrayBracesLoseEdit | pkg/toml/document.go:158-161 | the entries of a table header and `{a=1,b=2}` on the next line: both share that line, and deleting one drops the replacement of the other |
| TomlParse.ReadValueFrom | pkg/toml/document.go:377-425 | the loop of `readValue` on the decoder object returns the specified span and state, or stops as specified |
| TomlParse.ReadContainerFrom | pkg/toml/document.go:392-412 | the bracket-counting loop ends where the specified one ends |
| TomlParse.ParseDocument | pkg/toml/document.go:106-163 | the loop builds a document with exactly the specified entries and no edits, or fails, or never returns, as specified |
| TomlString.PlainRun | pkg/toml/value.go:789-815 | decoding a run of plain bytes at once is decoding it byte by byte |
| TomlString.ScanBasicStringBody | pkg/toml/value.go:789-910 | the run-at-a-time loop yields the byte-by-byte meaning of every body, or fails exactly when that fails; what that meaning is, `TomlEscapes` says |
| TomlEscapes.DecodesExactly | pkg/toml/value.go:789-986 | a body decodes to a text if and only if it is spelled by pieces (plain bytes, escapes by letter, escapes by code point, line-ending backslashes) that mean the text |
| TomlEscapes.RuneRead | pkg/toml/value.go:879-903 | a UTF-8 reader gets back every scalar value from the bytes written for it |
| TomlEscapes.RunesDecode | pkg/toml/value.go:789-986 | however the scalar values of a text are spelled, a UTF-8 reader of the decoded text gets them back |
| TomlEscapes.AsciiRoundTrip | pkg/toml/value.go:789-910 | escaping by byte codes and decoding is the identity on every ASCII text, control bytes included |
| TomlEscapes.OneLineString | pkg/toml/value.go:676-735 | a string in single quotes denotes its body, one in double quotes its decoded body |
| TomlEscapes.MultiLineString | pkg/toml/value.go:676-764 | the same for triple quotes, without a newline right behind the opening ones |
| TomlString.AsciiQuoteEscapeIndex | pkg/toml/marshal.go:491-505 | the first byte to escape, none, or the fallback for text outside printable ASCII |
| TomlString.WriteQuotedString | pkg/toml/marshal.go:473-522 | printable text is quoted with quotes and backslashes escaped; other text falls back |
| TomlString.DecodeEscaped | pkg/toml/value.go:789-910 | decoding an escaped printable text gives the text |
| TomlString.QuotedRoundTrip | pkg/toml/value.go:676-699 | parsing a printed string gives back every printable-ASCII string |
| TomlKey.ScanDottedKey | pkg/toml/value.go:1057-1122 | the consuming loop yields the segments of the recursive parser, or fails with it |
| TomlKey.WriteHeader | pkg/toml/marshal.go:287-304 | the loop appends the header line of the path |
| TomlKey.SegmentRoundTrip | pkg/toml/marshal.go:974-985 | a printed segment, bare or quoted, is read back whole from in front of a dot or the end |
| TomlKey.DottedKeyRoundTrip | pkg/toml/value.go:1057-1122 | every non-empty path of printable segments (empty, dotted, spaced, quoted) survives printing and parsing |
| TomlKeyText.DottedKeyExactly | pkg/toml/value.go:1057-1122 | a key parses to the parts if and only if it is spelled by bare and quoted segments that name them, with dots between and white space around |
| TomlKeyText.BareWhenPossible | pkg/toml/marshal.go:974-985 | a key is printed bare if and only if its bytes allow it, and what is printed names the key |
| TomlKey.HeaderRoundTrip | pkg/toml/marshal.go:287-304 | the key of a printed table or array-table header parses back to the path |
| TomlInteger.GuardedStep | pkg/toml/value.go:1226-1251 | the division guard is exactly the overflow test, and past it the wrapping uint64 step is exact |
| TomlInteger.ParseUintDigits | pkg/toml/value.go:1226-1251 | accepts exactly the digit texts whose value is within the limit and returns that value; larger values are range errors |
| TomlInteger.ParseInteger | pkg/toml/value.go:1185-1224 | accepts exactly the well-formed literals that denote an int64 and returns the mathematical value; it never wraps |
| TomlInteger.LiteralExactly | pkg/toml/value.go:1185-1262 | a literal is well formed and denotes a number if and only if it is a sign, a base and digits of that base, with underscores, that make up the number |
| TomlInteger.FormatIntRoundTrip | pkg/toml/value.go:1185-1224 | the decimal text of an integer is a well-formed literal that denotes it |
| TomlInteger.PrintThenParse | pkg/toml/value.go:1185-1224 | printing then parsing is the identity on every int64, the minimum included |
| TomlDateTime.ParseFixedDigits | pkg/toml/datetime_parse.go:394-403 | the loop returns the value of an all-digit text and fails on any other |
| TomlDateTime.ParseClockSubseconds | pkg/toml/datetime_parse.go:312-349 | seconds, nanoseconds, fraction width and end position as specified |
| TomlDateTime.TimePrefixBytes | pkg/toml/datetime_parse.go:273-310 | a time prefix consists of digits, colons and a dot, so it never swallows an offset mark |
| TomlDateTime.ShapeDecides | pkg/toml/datetime_parse.go:37-101 | dispatching on the shape accepts a text as a value if and only if the grammar of that value's kind does; the four grammars are disjoint |
| TomlDateTime.MarshalOfParsed | pkg/toml/datetime.go:52-64 | marshalling a parsed date, time or date-time gives back the input, with the separator normalised to T |
| TomlDateTime.DateRoundTrip | pkg/toml/datetime.go:96-102 | every valid date parses back from its text |
| TomlDateTime.TimeRoundTrip | pkg/toml/datetime.go:140-146 | an in-range time parses back from its text, fraction width included, if and only if it is well formed |
| TomlDateTime.DateTimeRoundTrip | pkg/toml/datetime.go:52-64 | the same for date-times |
| TomlDateTime.SecondsLost | pkg/toml/datetime.go:219-233 | a concrete in-range time whose text loses its seconds |
| TomlCalendar.ValidDates | pkg/toml/datetime_parse.go:405-465 | a date is valid if and only if the proleptic Gregorian calendar has it, by month lengths and counted leap days |
| TomlCalendar.ValidClocks | pkg/toml/datetime_parse.go:419-440 | a clock is valid if and only if it shows a second of the day and a fraction of at most nine digits |
| TomlCalendar.ZoneExactly | pkg/toml/datetime_parse.go:351-376 | the zones read are Z and signed hours and minutes, with their offset in seconds |
| TomlCalendar.ParsedExactly | pkg/toml/datetime_parse.go:37-236 | the parser gives a value if and only if the text is one of that value: printed date and time, one of three separators, any spelling of the zone |
| NotifyBuffer.BoundedFits | pkg/llm/notifyqueue.go:68-92 | after a bounded push the live length is within capacity if and only if capacity is at least two, or one with nothing pending or no marker |
| NotifyBuffer.BoundedKeepsNewest | pkg/llm/notifyqueue.go:68-92 | the result is an optional marker, a suffix of the pending items and the new item, and the marker reports exactly the evicted slots |
| NotifyBuffer.Queue.constructor | pkg/llm/notifyqueue.go:43-45 | a new queue is empty and open |
| NotifyBuffer.Queue.Push | pkg/llm/notifyqueue.go:49-59 | an open queue appends the item, a closed one discards it |
| NotifyBuffer.Queue.Close | pkg/llm/notifyqueue.go:142-152 | the first close wins and items stay |
| NotifyBuffer.Queue.Compact | pkg/llm/notifyqueue.go:162-172 | live items slide to the front in order, vacated slots are zero, and the items moved are counted |
| NotifyBuffer.Queue.Next | pkg/llm/notifyqueue.go:97-138 | delivers the oldest item, and the close only when none is left; keeps consumed slots zero, the consumed prefix within the larger of 1024 and the live length, and (without bounded pushes) total items moved within total items delivered |
| NotifyBuffer.Queue.PushBounded | pkg/llm/notifyqueue.go:68-92 | contents become the bounded contents; a closed queue discards |
| NotifyQueue.StepSafe | pkg/llm/notifyqueue.go:49-160 | every step keeps: an item or a close implies a token, a thread about to signal, or a consumer about to look |
| NotifyQueue.NoLostWakeup | pkg/llm/notifyqueue.go:49-160 | this holds in every reachable state, for any number of producers and consumers |
| NotifyQueue.BlockedConsumerWakes | pkg/llm/notifyqueue.go:95-138 | with an item queued or a close behind it and nobody else moving, a waiting consumer can wake, and its look delivers the oldest item or the close |
| NotifyQueue.DeliversInOrder | pkg/llm/notifyqueue.go:49-138 | without bounded pushes, accepted items are the delivered ones followed by the pending ones, and a consumer that sees the close has everything delivered before it |
| NotifyQueue.ClosedStays | pkg/llm/notifyqueue.go:142-152 | a closed queue stays closed and accepts nothing |
| NotifyQueue.ClosedExactly | pkg/llm/notifyqueue.go:49-152 | in every run the queue is closed if and only if it was closed by somebody, and has accepted exactly what was pushed before |
| NotifyQueue.WakesAreSignalled | pkg/llm/notifyqueue.go:97-162 | in every run every wakeup has a signal of its own |
| NotificationRing.FitsPush | pkg/llm/codex/notification_ring.go:35-46 | writing at the tail appends to the ring-ordered contents and keeps free slots zero |
| NotificationRing.FitsDrop | pkg/llm/codex/notification_ring.go:73-82 | zeroing the head and advancing it removes the oldest entry |
| NotificationRing.FitsAppend | pkg/llm/codex/notification_ring.go:48-62 | a block copied in two pieces around the end continues the ring-ordered contents and disturbs nothing else |
| NotificationRing.Ring.constructor | pkg/llm/codex/notification_ring.go:24-26 | a new ring is empty with zero slots |
| NotificationRing.Ring.Push | pkg/llm/codex/notification_ring.go:35-46 | appends if there is room and says so |
| NotificationRing.Ring.PushDisplacing | pkg/llm/codex/notification_ring.go:64-89 | appends, evicting the oldest entry exactly when full, and says so |
| NotificationRing.Ring.Pop | pkg/llm/codex/notification_ring.go:91-107 | removes and returns the oldest entry; an emptied ring starts over at slot zero |
| NotificationRing.Ring.AppendAll | pkg/llm/codex/notification_ring.go:48-62 | appends the whole block if it fits, nothing otherwise |
| NotificationQueue.Shared.Push | pkg/llm/codex/notification_queue.go:68-82 | overflow evicts the oldest entry and counts it; a closed queue discards |
| NotificationQueue.Shared.Next | pkg/llm/codex/notification_queue.go:91-120 | drops are reported first, then entries, then the error |
| NotificationQueue.Shared.Close | pkg/llm/codex/notification_queue.go:122-133 | the first close wins and entries stay |
| NotificationQueue.Shared.Preload | pkg/llm/codex/router.go:142-159 | registration hands over the pending entries and their drop count, or fails when they do not fit |
| NotificationQueue.Conservation | pkg/llm/codex/notification_queue.go:68-133 | in every run, pushes = delivered + reported drops + unreported drops + buffered; the buffer is the newest contiguous pushes; each delivery is the push right after all that was accounted for; the close error comes only when everything was |
| NotificationQueue.GapAccounting | pkg/llm/codex/notification_queue.go:91-120 | deliveries keep push order, and the pushes missing between two of them are exactly what was reported between them |
| NotificationQueue.SingleConsumerServed | pkg/llm/codex/notification_queue.go:68-133 | in every run with one consumer, while it waits, drops, entries or an error come with a token |
| NotificationQueue.TwoConsumersWait | pkg/llm/codex/notification_queue.go:91-120 | a run that leaves any two consumers of a fresh queue waiting |
| NotificationQueue.SecondConsumerStranded | pkg/llm/codex/notification_queue.go:68-120 | a run from there that leaves one of the two waiting beside work with no token |
| NotificationQueue.ServedExactly | pkg/llm/codex/notification_queue.go:68-120 | in every run of a set of consumers nobody waits beside work without a token if and only if the set has at most one member |
| NotificationQueue.EventsTell | pkg/llm/codex/notification_queue.go:68-133 | in every run the error is that of the first close, the pushes are those before it, and the token is there if and only if a signal came since the last wakeup |
| NotificationQueue.CancelledInVain | pkg/llm/codex/notification_queue.go:91-120 | a call that is cancelled has looked and found nothing |
| ProcessQueue.Shared.Push | pkg/llm/codex/execserver_process.go:665-676 | files the event under its number unless closed |
| ProcessQueue.Shared.Next | pkg/llm/codex/execserver_process.go:678-701 | the error first, then the event with the next number, else nothing |
| ProcessQueue.Shared.Close | pkg/llm/codex/execserver_process.go:703-714 | the first error wins |
| ProcessQueue.DeliversInSequence | pkg/llm/codex/execserver_process.go:665-701 | in every run, duplicates and gaps included, deliveries carry the numbers 1, 2, 3, ... |
| ProcessQueue.DeliveredStream | pkg/llm/codex/execserver_process.go:665-701 | in every run, at any moment, deliveries followed by what is ready are the stream determined by the events that count: pushed before the close, latest under their number, not behind its delivery |
| ProcessQueue.AcceptedIsPushed | pkg/llm/codex/execserver_process.go:665-676 | with distinct numbers and no close every pushed event counts |
| ProcessQueue.ArrivalOrderIrrelevant | pkg/llm/codex/execserver_process.go:665-701 | two drained runs over permutations of the same distinct-numbered events, with consumers interleaved in any way, delivered the same stream |
| ProcessQueue.CloseStopsDelivery | pkg/llm/codex/execserver_process.go:678-714 | after the close nothing is delivered, not even what was ready |
| ProcessQueue.SingleConsumerServed | pkg/llm/codex/execserver_process.go:665-714 | in every run with one consumer, while it waits, a deliverable event or an error comes with a token |
| ProcessQueue.TwoConsumersWait | pkg/llm/codex/execserver_process.go:678-701 | a run that leaves any two consumers of a fresh queue waiting |
| ProcessQueue.SecondConsumerStranded | pkg/llm/codex/execserver_process.go:665-701 | a run from there that leaves one of the two waiting beside work with no token |
| ProcessQueue.ServedExactly | pkg/llm/codex/execserver_process.go:665-701 | in every run of a set of consumers nobody waits beside work without a token if and only if the set has at most one member |
| ProcessQueue.EventsTell | pkg/llm/codex/execserver_process.go:665-714 | in every run the error is that of the first close, and the token is there if and only if a signal came since the last wakeup |
| ProcessQueue.CancelledInVain | pkg/llm/codex/execserver_process.go:678-701 | a call that is cancelled has looked and found nothing |
| JsonRpc.IdsDiffer | pkg/llm/codex/jsonrpc_helpers.go:37-39 | different request numbers have different identifiers |
| JsonRpc.ClientState.NextRequestId | pkg/llm/codex/jsonrpc_helpers.go:37-39 | makes the allocation step of the transition system; the identifier is new: no request was ever registered under it and the table does not hold it |
| JsonRpc.ClientState.Register | pkg/llm/codex/jsonrpc_helpers.go:76-80 | makes the registration step, keeps the invariant, and displaces no waiting request |
| JsonRpc.ClientState.Unregister | pkg/llm/codex/jsonrpc_helpers.go:82-86 | makes the step, keeps the invariant, and leaves every other request waiting |
| JsonRpc.ClientState.Take | pkg/llm/codex/jsonrpc_helpers.go:88-96 | makes the delivery step; a channel comes out exactly if the request with the reply's identifier waits, it is that request's own, and the send on it will not block |
| JsonRpc.ClientState.TakeAll | pkg/llm/codex/jsonrpc_helpers.go:98-106 | makes the failing step; exactly the waiting channels come out, and no send on them will block |
| JsonRpc.StepInv | pkg/llm/codex/jsonrpc_helpers.go:41-106 | every step keeps: each request is waiting, about to be sent its one value, sent it, or unregistered, and no channel is claimed twice |
| JsonRpc.OneOwnReply | pkg/llm/codex/jsonrpc_helpers.go:76-106 | in every run, whatever replies the server sends, each channel gets at most one value, a failure or the reply with its own identifier, and no send ever blocks |
| JsonRpc.NothingInvented | pkg/llm/codex/jsonrpc_helpers.go:76-106 | in every run a channel holds only replies that were delivered, as they were, and errors of failures |
| JsonRpc.WaitingGets | pkg/llm/codex/jsonrpc_helpers.go:88-106 | a request that waits when its reply is delivered gets exactly that reply, one that waits when the client fails exactly that error, for the rest of the run |
| JsonRpc.FailPendingSettles | pkg/llm/codex/jsonrpc_helpers.go:98-106 | after `failPending`, however the run goes on, every request registered before it has exactly one value or has unregistered once its send is done |
| TmuxClient.Guarded.RegisterPending | pkg/tmux/client.go:444-452 | registers exactly when no command is pending, as the step of the system |
| TmuxClient.Guarded.ClearPending | pkg/tmux/client.go:454-460 | clears only the caller's own command, as the step of the system |
| TmuxClient.Guarded.Take | pkg/tmux/client.go:410-425 | takes the pending command out and names whom to send the value |
| TmuxClient.Guarded.DeliverResponse | pkg/tmux/client.go:410-425 | the waiting caller is to be sent the answer, as the step of the system |
| TmuxClient.Guarded.FailWaiting | pkg/tmux/client.go:462-474 | the waiting caller is to be sent the failure, as the step of the system |
| TmuxClient.Guarded.MarkClosed | pkg/tmux/client.go:482-490 | closes, as the step of the system |
| TmuxClient.StepInv | pkg/tmux/client.go:195-502 | every step of callers, reader, aborters and close keeps the line, pending and channel invariants |
| TmuxClient.OwnResponse | pkg/tmux/client.go:195-248 | in every interleaving `ExecRaw` returns the answer to the caller's own line, or a failure once the client is closed; each channel gets at most one value and has room for it, and registration never finds another command pending |
| TmuxClient.WrittenIsAnswered | pkg/tmux/client.go:195-248 | while the client is open, whoever wrote a line holds the write lock or has returned the answer to exactly that line |
| TmuxClient.AnswerArrives | pkg/tmux/client.go:410-425 | the command pending when a line is answered wrote that line, and its channel and result hold that answer for the rest of the run |
| TmuxClient.HolderMoves | pkg/tmux/client.go:195-248 | in every run whoever holds the write lock can go on, and exactly as its phase allows |
| TmuxClient.OpenAndFreeIsQuiet | pkg/tmux/client.go:195-248 | while the client is open and the write lock is free, every written line has been answered and none is pending |
| TmuxProtocol.ParsePrinted | pkg/tmux/protocol.go:211-229 | printed non-negative 64-bit numbers parse back |
| TmuxProtocol.MarkerParses | pkg/tmux/protocol.go:174-229 | a rendered marker line is read back as its marker |
| TmuxProtocol.ParseIntExactly | pkg/tmux/protocol.go:211-239 | a number is read exactly from the texts that denote it in 64 bits |
| TmuxProtocol.FieldsOfWoven | pkg/tmux/protocol.go:174-215 | whatever white space is around and between words, the fields are the words |
| TmuxProtocol.ClosesExactly | pkg/tmux/protocol.go:183-243 | a line closes a block if and only if it is a terminator with three numbers of which the first two are the block's |
| TmuxProtocol.IdleExactly | pkg/tmux/protocol.go:143-157 | outside a block a line opens one, is a notification, or is an error, each exactly by its text |
| TmuxProtocol.Parser.FeedLine | pkg/tmux/protocol.go:120-158 | one line: message and parser state as specified |
| TmuxProtocol.TranscriptRoundTrip | pkg/tmux/protocol.go:120-158 | every transcript of blocks and notifications is read back as one message per item, in order, with the parser idle at the end, provided no payload line closes its own block |
| TmuxProtocol.PayloadKept | pkg/tmux/protocol.go:167-172 | a payload comes back unchanged if and only if it has no empty line |
| ControlProtocol.Inflight.Admit | pkg/llm/claude/control_protocol.go:543-552 | under the lock, files and counts the request unless closed |
| ControlProtocol.Inflight.Forget | pkg/llm/claude/control_protocol.go:555-558 | removes the handler's identifier |
| ControlProtocol.Inflight.Finish | pkg/llm/claude/control_protocol.go:560-560 | counts the handler out |
| ControlProtocol.Inflight.Close | pkg/llm/claude/control_protocol.go:571-585 | closes the gate and snapshots the cancel functions |
| ControlProtocol.Inflight.TakeCancel | pkg/llm/claude/control_protocol.go:649-663 | removes the identifier and returns its cancel function, if any |
| ControlProtocol.StepInv | pkg/llm/claude/control_protocol.go:528-613 | every step keeps the wait-group count equal to the number of live handlers |
| ControlProtocol.ClosedOnlyShrinks | pkg/llm/claude/control_protocol.go:528-585 | once closed, in every continuation no handler starts and the count never grows |
| ControlProtocol.ShutdownBarrier | pkg/llm/claude/control_protocol.go:571-613 | in every run the count is the number of live handlers; a successful `waitInflight` comes after `closeInflight`, and after it no handler runs again; after `closeInflight` handlers only leave |
| ControlProtocol.CloseReachesEveryone | pkg/llm/claude/control_protocol.go:528-585 | if concurrent requests have distinct identifiers, after the close every handler still in its callback is cancelled or has a cancel call under way |
| ControlProtocol.CloseReachesExactly | pkg/llm/claude/control_protocol.go:528-663 | in every run, duplicate identifiers or not: a handler still in its callback is cancelled, or has a cancel call under way, if and only if between its spawn and some close or cancel request for its identifier no other request with that identifier was spawned and no handler of one was removed |
| ControlProtocol.DuplicateEscapes | pkg/llm/claude/control_protocol.go:550-550 | with a duplicate identifier a running handler is missed by the close |
| Memchr.Unique | internal/memchr/memchr_swar_impl.go:75-308 | a true first (or last) match is unique, so all correct searches agree |
| Memchr.ZeroByteFlag | internal/memchr/memchr_swar_impl.go:64-66 | the flag word is non-zero if and only if some byte is zero |
| Memchr.PackFlag | internal/memchr/memchr_swar_impl.go:64-73 | on a little-endian word xored with a broadcast needle the test is exact for all eight lanes |
| Memchr.FlagsMeaning | internal/memchr/memchr_swar_impl.go:132-140 | the or-ed flags of any needle set are zero exactly when none of the eight bytes is a needle |
| Memchr.SwarFirst | internal/memchr/memchr_swar_impl.go:75-188 | for every haystack, base address and needle set: the true first match or -1, with every load in bounds and aligned |
| Memchr.SwarLast | internal/memchr/memchr_swar_impl.go:190-308 | for every haystack, base address and needle set: the true last match or -1, with every load in bounds and aligned |
| Memchr.FirstLane | internal/memchr/memchr_amd64.go:54-62 | the trailing-zero count of a chunk's mask is its first match |
| Memchr.LastLane | internal/memchr/memchr_amd64.go:123-136 | width minus one minus the leading-zero count is its last match |
| Memchr.WideFirst | internal/memchr/memchr_amd64.go:47-122 | at widths 16, 32 and 64: the true first match or -1, with every load in bounds |
| Memchr.TailLast | internal/memchr/memchr_amd64.go:147-155 | the byte loop finds the last match of the partial chunk |
| Memchr.ChunkLast | internal/memchr/memchr_amd64.go:156-163 | one downward round finds the last match of a chunk |
| Memchr.WideLast | internal/memchr/memchr_amd64_v4_archsimd.go:80-135 | at widths 16, 32 and 64: the true last match or -1, with every load in bounds |
| JsonScanner.Scanner.SkipBlanks | pkg/llm/codex/notification_scan.go:421-430 | the cursor moves past the white space |
| JsonScanner.Scanner.ConsumeByte | pkg/llm/codex/notification_scan.go:432-438 | consumes the byte exactly when it is there |
| JsonScanner.Scanner.ConsumeLiteral | pkg/llm/codex/notification_scan.go:440-451 | consumes the literal exactly when it is there |
| JsonScanner.Scanner.ReadText | pkg/llm/codex/notification_scan.go:379-419 | raw text, escape mark and position of the specified string, or failure with it |
| JsonScanner.Scanner.ConsumeNumber | pkg/llm/codex/notification_scan.go:325-366 | ends where the number grammar ends, or fails with it |
| JsonScanner.Scanner.ConsumeValue | pkg/llm/codex/notification_scan.go:249-271 | ends where the recursive skipper ends, or fails with it; the remaining length bounds the mutual recursion |
| JsonScanner.Scanner.ConsumeArray | pkg/llm/codex/notification_scan.go:302-323 | the same for arrays |
| JsonScanner.Scanner.ConsumeObject | pkg/llm/codex/notification_scan.go:273-300 | the same for objects |
| JsonScanner.Scanner.ReadTurnObject | pkg/llm/codex/notification_scan.go:192-247 | identifiers and end position of the specified turn object, or failure with it |
| JsonScanner.Scanner.ReadEnvelope | pkg/llm/codex/notification_scan.go:75-121 | identifiers and end position of the specified outer object, or failure with it |
| JsonScanner.ScanNotificationTurnId | pkg/llm/codex/notification_scan.go:65-140 | the scan computes the specified answer |
| JsonText.StringRead | pkg/llm/codex/notification_scan.go:379-419 | every string text is read whole, with its raw body and whether it has an escape |
| JsonText.NumberRead | pkg/llm/codex/notification_scan.go:325-366 | every number text in front of a delimiter is consumed exactly |
| JsonText.ElementsRead | pkg/llm/codex/notification_scan.go:302-323 | every list of elements, white space included, is consumed up to its bracket |
| JsonText.MembersRead | pkg/llm/codex/notification_scan.go:273-300 | every list of members, white space included, is consumed up to its brace |
| JsonText.ValueRead | pkg/llm/codex/notification_scan.go:249-366 | for every JSON value tree with any white space, skipping its text in front of a delimiter consumes exactly the text |
| JsonSound.ValueFrom | pkg/llm/codex/notification_scan.go:249-366 | conversely, whatever is skipped is the text of some tree |
| JsonSound.SkipsExactlyJson | pkg/llm/codex/notification_scan.go:249-366 | up to a delimiter, the skipper accepts a stretch of bytes if and only if it is white space and a JSON text, commas before a closing bracket allowed |
| JsonTurn.TurnRoundsRead | pkg/llm/codex/notification_scan.go:192-247 | on every turn object the scan succeeds exactly when its keys and identifiers are simple, with the last value of each identifier |
| JsonTurn.PreferIsReference | pkg/llm/codex/notification_scan.go:122-140 | the preference among the identifiers collected by the loop is the reference lookup order |
| JsonTurn.TurnIdFound | pkg/llm/codex/notification_scan.go:65-140 | on every JSON text the scan answers if and only if the text is null or an object whose keys have no escapes and whose identifiers are plain strings right after their colon, and the answer is the first non-empty of turnId, turn_id, turn.turnId, turn.turn_id, turn.id |
| JsonTurn.LatestIsField | pkg/llm/codex/notification_scan.go:481-510 | with distinct names the lookup by name is the field a decoder into a struct fills |
| JsonTurn.AnswersOnlyJson | pkg/llm/codex/notification_scan.go:65-140 | whatever the scan answers on is a JSON text, commas before a closing bracket allowed |
| JsonTurn.TurnIdExactly | pkg/llm/codex/notification_scan.go:65-140 | on every byte string: the scan answers if and only if it is white space around `null` or around a readable object |
| JsonTurn.AnswerIsDecoded | pkg/llm/codex/notification_scan.go:481-510 | where the scan answers, its answer is what a strict decoder into the struct returns if and only if the text is strict (no comma before a closing bracket, distinct names) or the answer is empty |
| JsonTurn.StrictEverywhere | pkg/llm/codex/notification_scan.go:481-510 | a text is strict if and only if no array or object anywhere in it ends in a comma and no object repeats a name |
| JsonTurn.TrailingCommaAnswered | pkg/llm/codex/notification_scan.go:75-121 | a trailing comma does not stop the scan |

## Left out

- Benchmarks, command-line discovery, launch arguments, option structs, session stores: easy members only.
- Subprocesses, pipes, WebSockets, timeouts and deadlines: operating-system behaviour; only safety and enabledness of steps are modelled, not when a step happens.
- Assembly search backends and run-time dispatch between backends: only their declarations are Go.
- Reflection-based decoding and marshalling, struct caches, pooling.
- Floats, offset time zones as locations, and `strconv.Quote` outside printable ASCII: library semantics; the string and key round trips are for printable ASCII.
- The decode filter of `parseDocument`: every key is kept, as with no filter.
- Tables as shared Go maps: `TomlTree` and `TomlTables` build the document as values, so a table shared by two variables is modelled by `TomlTree.AssignInPlace`, not by aliasing; the loops of `ensureTableRaw`, `appendArrayTableRaw` and `assignUniqueRaw` are recursive functions.
- How a bare value is classified (`classifyBareValue`) and decoded: a parameter of the decoder; both sides of the skip theorem use the same one.
- The scan kernels of `pkg/toml/internal/scan`: used through their contracts.
- Under which table an inserted line lands: it is read back as its key and value (`TomlTokens.LineTokens`), but it belongs to whatever header stands above it.
- TomlEditor.Document.constructor: takes entries as given; `TomlParse.ParseDocument` collects them from the token stream and calls it.
- TomlEditor.Document.Set: how values are parsed and printed is a parameter, so a value that cannot be printed is any value the parameter refuses.
- TomlEdits.EditsDecide: about replacements and deletions; insertions beside them are covered by `TomlEditor.Document.Bytes` when no operations overlap.
- TomlSkip.FastSkipIsTokenSkip: one direction, because the other is false; when it holds is `TomlSkipExact.FastSkipExactly`.
- NotifyQueue.DeliversInOrder: only without bounded pushes, which evict by design; what they keep is `NotifyBuffer.BoundedKeepsNewest`.
- NotifyBuffer.Queue.Next: the amount moved is bounded only as long as `PushBounded`, which compacts on every call after a delivery, is not used.
- NotificationQueue.Conservation: for a ring of at least one slot (the source uses 128), and for consumers that use `next`; the unreported drop count is unbounded here and 64 bits wide in Go.
- NotificationRing.Ring.AppendAll: the second copy is made even when it is empty.
- ProcessQueue.DeliversInSequence: sequence numbers do not wrap at 64 bits.
- JsonRpc.IdsDiffer: the request counter does not wrap at 64 bits.
- TmuxClient.OwnResponse: assumes, as the source does, that the server answers each written line once and in order and that a failed write delivers nothing.
- TmuxProtocol.TranscriptRoundTrip: fields are split at ASCII white space.
- ControlProtocol.CloseReachesEveryone: a sufficient condition; the exact one is `ControlProtocol.CloseReachesExactly`.
- Outbound control requests of the claude client (`routeControlResponse` and `failPending` leave the entry in the table and send without blocking) and the login-identifier scan.
- JsonTurn.AnswerIsDecoded: the decoder of `decodeNotificationTurnID` is modelled by its fields on strict texts and by no answer on others; text that is not valid UTF-8, which it also refuses, is not told apart.
- Memchr.WideFirst: vector instructions are modelled by the lanes they compare, not by their encoding.
