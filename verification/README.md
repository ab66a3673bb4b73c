# Verified models of the build auditor, configuration store and emitters

A Dafny model of the parts of the repository in which one algorithm makes a promise about a whole
input or a whole run, with proofs of those promises. `dafny verify dfyconfig.toml` checks all of it.

| area | files |
|---|---|
| header closure and audit cache key | `HeaderText`, `HeaderExpansion`, `HeaderClosure`, `HeaderVocabulary`, `PathParts`, `HeaderSearch`, `PreprocessorRuns` |
| command lines and response files | `CommandTokens`, `CommandGrammar`, `ResponseFiles` |
| recording file system and native reader | `NativeReader`, `ReadPolicy`, `AuditFileSystem`, `AuditRecorder`, `AuditRuns`, `AuditQuotas`, `AuditSources`, `AuditAnswers` |
| product configuration | `ConfigValues`, `TomlText`, `TomlScalars`, `TomlValues`, `TomlLayout`, `TomlTables`, `TomlNesting`, `TomlDocument`, `TomlLines`, `TomlRoundTrip`, `TomlRecords`, `LayeredConfig` |
| Mach-O inspection | `MachImage`, `MachBytes`, `MachEncoder` |
| transpiler text | `TemplateClause`, `TemplateReading`, `RequiresClause`, `ExpressionText` |
| smaller algorithms | `ArrayLayout`, `LineMarkers`, `MacroScan`, `StripComments` |

Code that works by changing state is modelled by classes and methods with loops (`Capture`,
`Expansion`, `Expander`, `Recorder`, `PinnedDirectory`, `ConfigStore`, the parsers and emitters), each
proved against a specification function or a declarative predicate; the promises are then lemmas
about that specification. Exceptions and error codes are `Result` values.

## Main results

- **Cache key.** `RunStaysInside` covers every run of a preprocessor with arbitrary branch choices,
  `#undef`, search orders and `#pragma once` decisions: it opens and asks for nothing outside the
  computed closure. `CacheKeySound` concludes that two successful computations with the same key, on
  two disks, fix every such run, each disk with its own search directories, physical paths and file
  identities. `Capture.CloseUnit` computes exactly the least closed set, whatever the drain order.
  `PlacesCovered` and `OnlyReached` say on path components which paths those are: the header's name under
  every root and, for a quoted form, beside the including file as named and as it resolves, and no
  others. A refusal for another reason than a limit is justified (`AuditInputIdentity`).
- **Recording file system.** Against a disk that may answer differently at every call, `OneView`
  holds in every reachable state; `QuotasHold` ties every quota to what is actually recorded;
  `RunEvolves`, `Replay` and `SealedQueryFails` cover replay, seal and sticky failure over whole runs.
  `RecordIsTrue` traces every recorded success and every recorded missing file to what the disk answered
  to some query of the run, and `CleanQuerySucceeds` says that a disk which answers cleanly, and as
  before, is never refused within the quotas.
- **Configuration.** `WrittenMap`: nesting, writing and reading any clean map gives the entries whose
  key has no dotted prefix in the map, and the whole map exactly when no key has one and no integer
  has the shape the date test claims. For texts written by hand, `IdleAnywhere`, `IndentedAnywhere`,
  `SettingRead` and `MalformedFails` say what comments, blanks, settings and broken lines mean anywhere.
- **Command lines.** `PosixSplitIff` and `WindowsSplitIff` say exactly which texts split in each dialect;
  `ArgumentsRead` says what bare and quoted arguments between any separators split into.
- **Mach-O.** `InspectDylib` accepts exactly the declaratively acceptable images; `AcceptedIff` states the
  condition on the bytes alone, and every image of a reference encoder meets it.
- **Emitters.** `RestoredIff`, `ListRead`, `EmitInjective` and `TopInjective`.

## Where the code does not meet the wider promise

Each of these is kept as the code has it; the condition under which the promise holds is proved.

- A negative integer of exactly nine digits is read back as a date: its text has ten characters, all
  of them digits or a dash, and one dash, which is all the date test asks for (`TomlText.IntRoundTrip`,
  `TomlRoundTrip.WrittenMap`).
- An entry whose key has another key of the map as a dotted prefix is lost, and exactly these are
  (`TomlNesting.NestKeeps`, `TomlRoundTrip.WrittenMap`; two settings in `TomlRoundTrip.PrefixLosesEntry`).
- A predefined macro that the unit redefines in a branch not taken can lead a run outside the closure
  (`PreprocessorRuns.RedefinedBuiltinEscapes`). Soundness asks that every predefined text which a lookup
  can reach is a collected alternative or spells a header these denote (`Harmless`); where redefined
  names are looked up outright this condition is exact (`PreprocessorRuns.PredefinedIff`).
- A disk that resolves a path to the empty text escapes the cross-check (`AuditRuns.EmptyRealPathEscapes`).
- A 64-bit wrap of a field's end lets an overlapping field through (`ArrayLayout.WrappedOverlap`).
- A downgrade note, or a declaration that starts with a return type, hides a requires clause from the
  extractor (`RequiresClause.RestoredIff`).
- Minus directly in front of minus, members of an unparenthesised prefix form and compound assignments
  nested on the left print ambiguously (`ExpressionText.AmbiguousOutside`).
- A stored table is written as a section and read back as settings of its own (`TomlRecords.RecordIsFlattened`).
- A table inside an array keeps the reader's marker. A setting is read exactly iff it holds no such table
  and no date-shaped integer (`TomlLines.ExactIff`; `TomlLines.ArrayTableMarked` shows the field it gains).
- A slash in code hides a quote directly behind it from the comment stripper. Behind code read in step
  every literal is kept exactly when the code does not end in a slash (`StripComments.LiteralsKeptIff`);
  otherwise text of a literal can be lost (`StripComments.LiteralLosesText`) and a comment can stay
  (`StripComments.CommentStays`).
- A slash in code at the very end of a text is dropped as if it began a comment (`StripComments.UnchangedIff`).
- A second symbol-table command is refused only when the earlier one names a table at a non-zero
  offset (`MachImage.LastTable`, the predicate `InspectDylib` is proved against).

## Model

| member | source | states |
|---|---|---|
| `HeaderText.AddHeaderMacro` | topo-check/analysis/CppCompileModel.cpp:430-440 | a definition adds its one-line alternative to its name and keeps all others, or is refused at the table or alternative limit |
| `HeaderText.HeaderLookups` | topo-check/analysis/CppCompileModel.cpp:456-503 | collects exactly the operands a source asks for and exactly the alternatives it supplies; fails exactly on a directive outside the supported form or a table that outgrows its limits |
| `HeaderVocabulary.DefinitionCounts` | topo-check/analysis/CppCompileModel.cpp:430-440 | an object-like definition in a closure file supplies its text, without blanks around it, as an alternative of its name |
| `HeaderVocabulary.NoFunctionsOrUndefined` | topo-check/analysis/CppCompileModel.cpp:430-529 | in a resolved closure no lookup goes through a name that some file undefines or defines as a function |
| `HeaderVocabulary.DirectivesAreClassified` | topo-check/analysis/CppCompileModel.cpp:456-503 | a resolved closure has only classified directives, no include probe in a definition and no odd name undefined |
| `HeaderVocabulary.OperandsArePlain` | topo-check/analysis/CppCompileModel.cpp:456-529 | in a resolved closure every operand is a name with alternatives or a delimited header that is neither absolute nor leaves its directory |
| `HeaderVocabulary.MacroHeadersAreQuoted` | topo-check/analysis/CppCompileModel.cpp:504-529 | a header that comes out of a macro is a plain name in quotes |
| `HeaderExpansion.Expansion.Expand` | topo-check/analysis/CppCompileModel.cpp:504-529 | the result is the set of literals the operand denotes through chains of aliases; complete iff every reached name is defined; the active set is restored; a refused operand is cyclic or reaches an unsupported text, and a budget refusal means 262144 expansions, 64 MiB of text or 64 nested aliases are exceeded |
| `HeaderExpansion.Expansion.ExpandAlternatives` | topo-check/analysis/CppCompileModel.cpp:521-528 | every alternative of one alias is expanded, with the alias still active |
| `HeaderClosure.Capture.Describe` | topo-check/analysis/CppCompileModel.cpp:541-580 | records the state of a path and answers whether it is a regular file; refused iff it is a special file or the 32768 candidates are used up by others |
| `HeaderClosure.Capture.CaptureFile` | topo-check/analysis/CppCompileModel.cpp:581-600 | a captured file is regular, its exact content and physical path are recorded, a scanned one has a single link, records already made stay true; a refusal names an unavailable or linked file, or a limit it really exceeds |
| `HeaderClosure.Capture.Drain` | topo-check/analysis/CppCompileModel.cpp:651-658 | after draining, the visited files are the old ones and all pending ones, every one is scanned, and nothing lies outside the closed sets |
| `HeaderClosure.Capture.ResolveLookup` | topo-check/analysis/CppCompileModel.cpp:660-677 | every candidate path of every header the operand denotes has been described; only existing unvisited candidates become pending |
| `HeaderClosure.Capture.ResolveAll` | topo-check/analysis/CppCompileModel.cpp:659-678 | one round resolves every lookup with the current table and reports whether all aliases were defined |
| `HeaderClosure.Capture.CloseUnit` | topo-check/analysis/CppCompileModel.cpp:640-684 | on success the result is the least closed pair of files and macro alternatives, fully resolved, every file with a single link, and the key covers all it can search; a refusal that is no limit means the least closed pair, if any, is unusable |
| `HeaderClosure.LeastClosedUnique` | topo-check/analysis/CppCompileModel.cpp:645-649 | there is only one least closed pair, so the drain order cannot matter |
| `HeaderClosure.BuildCommandTable` | topo-check/analysis/CppCompileModel.cpp:619-631 | command-line definitions replace and undefinitions erase, in order; refused exactly when an argument is an include probe, has a line break, is no definition or no identifier, or makes the table too large |
| `HeaderVocabulary.DefineValue` | topo-check/analysis/CppCompileModel.cpp:619-631 | a definition with a value replaces whatever the name was, by the value without blanks around it |
| `HeaderVocabulary.DefineFlag` | topo-check/analysis/CppCompileModel.cpp:619-631 | a definition without a value means 1, and an undefinition forgets the name |
| `HeaderVocabulary.CommandRefusals` | topo-check/analysis/CppCompileModel.cpp:619-631 | include probes, line breaks and arguments without a name are refused |
| `HeaderClosure.AuditInputIdentity` | topo-check/analysis/CppCompileModel.cpp:532-687 | a returned key is true of the disk, covers the fully resolved least closure of every unit and records its declared inputs and roots; a refusal that is no limit means the model is no file or some unit admits no key |
| `HeaderSearch.PlacesCovered` | topo-check/analysis/CppCompileModel.cpp:660-677 | in a covered closure, an included name under any root, and for a quoted form under any quoted root and beside the file as named or as resolved, is in the key, and in the closure when it exists |
| `HeaderSearch.DenotedCovered` | topo-check/analysis/CppCompileModel.cpp:660-677 | the same for every header that an operand denotes through macros |
| `HeaderSearch.OnlyReached` | topo-check/analysis/CppCompileModel.cpp:640-684 | every file of a resolved least closure is the unit, forced, or at such a place of a header some closure file asks for |
| `HeaderSearch.RunAsksReached` | topo-check/analysis/CppCompileModel.cpp:640-684 | a run asks only for such paths, and is told what the disk says |
| `HeaderSearch.EveryPlaceAsked` | topo-check/analysis/CppCompileModel.cpp:660-677 | every such place of an include of the unit or a forced file is asked for by some run |
| `HeaderSearch.SearchInOrder` | topo-check/analysis/CppCompileModel.cpp:660-677 | a run asks directory by directory, as far as the first file that exists |
| `PreprocessorRuns.LiveMeaning` | topo-check/analysis/CppCompileModel.cpp:504-529 | whatever a live macro chain expands to is a header the collected alternatives denote |
| `PreprocessorRuns.RunStaysInside` | topo-check/analysis/CppCompileModel.cpp:645-684 | every run, for any branch choices, search order, re-entry decisions and number of steps, opens only closure files, asks only for searched paths, and has only collected or starting definitions live |
| `PreprocessorRuns.RunsAgree` | topo-check/analysis/CppCompileModel.cpp:532-687 | two disks that agree on the closure's contents, physical paths, identities and searched paths have the same runs, each with its own search directories |
| `PreprocessorRuns.CacheKeySound` | topo-check/analysis/CppCompileModel.cpp:532-687 | one key computed on two disks makes every run equal on both, and every opened, met or asked path is in the key as it is |
| `PreprocessorRuns.LeastClosedSame` | topo-check/analysis/CppCompileModel.cpp:645-684 | disks with the same view of a least closed pair have the same least closed pair |
| `PreprocessorRuns.PredefinedIff` | topo-check/analysis/CppCompileModel.cpp:619-631 | where redefined predefined names are looked up outright, no run looks up anything unconsidered iff the closure accounts for the starting texts |
| `PreprocessorRuns.StartLookupOpens` | topo-check/analysis/CppCompileModel.cpp:660-677 | every header that a starting text of an own operand spells is opened by some run, from any of its search directories |
| `PreprocessorRuns.RedefinedBuiltinEscapes` | topo-check/analysis/CppCompileModel.cpp:619-631 | without the condition on predefined names, a concrete run opens a file outside the least, fully resolved closure |
| `CommandTokens.SplitCommand` | topo-check/analysis/CppCompileModel.cpp:277-318 | the character loop computes the token function of both dialects |
| `CommandGrammar.PosixSplitIff` | topo-check/analysis/CppCompileModel.cpp:277-318 | a POSIX text splits iff it consists of bare characters without shell meaning, escapes and closed quotes, free of NUL outside escapes, and the result is the words of any such reading |
| `CommandGrammar.WindowsSplitIff` | topo-check/analysis/CppCompileModel.cpp:277-318 | a Windows text splits iff it has no NUL and an even number of quotes behind an even number of backslashes; the error says which failed |
| `CommandTokens.SplitInvertsQuoting` | topo-check/analysis/CppCompileModel.cpp:277-318 | splitting the quoted form of any NUL-free argument list gives back the list, empty arguments included, in both dialects |
| `CommandGrammar.ArgumentsRead` | topo-check/analysis/CppCompileModel.cpp:277-318 | bare or quoted arguments between any runs of the six separators, also in front and behind, split into exactly these arguments, in both dialects |
| `ResponseFiles.Expander.Expand` | topo-check/analysis/CppCompileModel.cpp:130-154 | on normal return the output grows by exactly the recursive flattening, the inputs by exactly the files read, the stack is unchanged, and the limits hold; an error means the flattening does not exist or breaks a limit |
| `ResponseFiles.ExpandResponses` | topo-check/analysis/CppCompileModel.cpp:130-154 | the whole expansion equals recursive flattening within 9 levels, 16384 arguments and 1 MiB, with exactly the files read listed in order; an error means there is none |
| `ResponseFiles.FlattenedPlain` | topo-check/analysis/CppCompileModel.cpp:137-152 | no unexpanded response file is left in the result |
| `ResponseFiles.ArgumentMeaning` | topo-check/analysis/CppCompileModel.cpp:130-154 | a plain argument stands for itself; a response argument for the arguments its file holds, one level deeper, and for nothing when it has none |
| `ResponseFiles.ListMeaning` | topo-check/analysis/CppCompileModel.cpp:130-154 | the flattening of a list, and the files read, are those of its parts in order |
| `ResponseFiles.FlattenMonotone` | topo-check/analysis/CppCompileModel.cpp:133-133 | a larger depth allowance gives the same result, so the depth limit only cuts off |
| `ResponseFiles.CycleHasNoFlattening` | topo-check/analysis/CppCompileModel.cpp:140-140 | a file that includes itself has no flattening at any depth, so refusing it loses nothing |
| `NativeReader.RootCoversComponents` | topo-check/extractor/CppAuditNativeFile.cpp:58-76 | the textual prefix test of a read root means a prefix of path components |
| `ReadPolicy.RootCovers` | topo-check/extractor/CppAuditNativeFile.cpp:58-76 | with trailing separators in either, a root covers a path iff its components are the first of the path |
| `ReadPolicy.AuthorizedIff` | topo-check/extractor/CppAuditNativeFile.cpp:58-76 | a path is authorized iff some root covers it or, for files only, it is named |
| `ReadPolicy.FileReason` | topo-check/extractor/CppAuditNativeFile.cpp:289-389 | an error of a file read was given by the kernel or has the reason its code says |
| `ReadPolicy.DirectoryReason` | topo-check/extractor/CppAuditNativeFile.cpp:391-467 | the same for a directory read |
| `NativeReader.ReadLoop` | topo-check/extractor/CppAuditNativeFile.cpp:343-366 | the bounded loop computes the specified read for any sequence of short reads |
| `NativeReader.ReadAllExact` | topo-check/extractor/CppAuditNativeFile.cpp:330-366 | a read succeeds iff some number of non-empty chunks has the declared size and the end of file is confirmed behind them, and then it is their concatenation |
| `NativeReader.ReadNativeFile` | topo-check/extractor/CppAuditNativeFile.cpp:289-389 | the order of checks and error codes of a whole file read, and no more bytes than allowed |
| `NativeReader.ListEntriesExact` | topo-check/extractor/CppAuditNativeFile.cpp:415-450 | a complete listing is every entry but the two dots, in order, within both limits |
| `NativeReader.ReadNativeDirectory` | topo-check/extractor/CppAuditNativeFile.cpp:391-467 | the order of checks and error codes of a whole directory read |
| `AuditRecorder.Recorder.QueryIndex` | topo-check/extractor/CppAuditFileSystem.cpp:105-127 | the in-place query refines the specified query: state, index and error |
| `AuditRecorder.Recorder.RecordAt` | topo-check/extractor/CppAuditFileSystem.cpp:142-281 | the in-place recording of each query kind refines the specified one, with cross-checks and budgets |
| `AuditRecorder.Recorder.ChargeStrings` | topo-check/extractor/CppAuditFileSystem.cpp:81-88 | charges or fails, without an unsigned wrap |
| `AuditRecorder.Recorder.Status` | topo-check/extractor/CppAuditFileSystem.cpp:282-288 | answers from the pinned observation |
| `AuditRecorder.Recorder.OpenFileForRead` | topo-check/extractor/CppAuditFileSystem.cpp:289-295 | answers with the pinned bytes |
| `AuditRecorder.Recorder.DirBegin` | topo-check/extractor/CppAuditFileSystem.cpp:299-307 | the pinned entries and end of iteration; an empty directory answers its end at once |
| `AuditRecorder.Recorder.GetRealPath` | topo-check/extractor/CppAuditFileSystem.cpp:308-314 | answers with the pinned physical path |
| `AuditRecorder.Recorder.IsLocal` | topo-check/extractor/CppAuditFileSystem.cpp:315-321 | answers from the pinned observation |
| `AuditRecorder.Recorder.SetCurrentWorkingDirectory` | topo-check/extractor/CppAuditFileSystem.cpp:322-327 | only the fixed working directory is accepted; any other one fails for good |
| `AuditRecorder.ReplayDirectory` | topo-check/extractor/CppAuditFileSystem.cpp:48-62 | iterating a pinned directory yields its entries in order and then its recorded end |
| `AuditRuns.RunKeepsInvariant` | topo-check/extractor/CppAuditFileSystem.cpp:105-281 | every run keeps the index the inverse of the record, the view consistent and all counters within their limits |
| `AuditRuns.OneView` | topo-check/extractor/CppAuditFileSystem.cpp:128-281 | in every reachable state successful observations of a path share metadata and physical path, opens of one identity share metadata and bytes, and nothing is both seen and missing |
| `AuditQuotas.RunKeepsLedger` | topo-check/extractor/CppAuditFileSystem.cpp:81-281 | every step keeps the counters in account of the record: bytes and text at least those recorded, directory entries exactly |
| `AuditQuotas.QuotasHold` | topo-check/extractor/CppAuditFileSystem.cpp:81-281 | in every reachable state the total recorded bytes, entries, text and queries keep their limits, and so does every single file, directory and path |
| `AuditSources.RunTraced` | topo-check/extractor/CppAuditFileSystem.cpp:105-281 | every further run keeps all recorded answers and known metadata traced to the queries made so far |
| `AuditSources.RecordIsTrue` | topo-check/extractor/CppAuditFileSystem.cpp:105-281 | every recorded success has the metadata, bytes, entries, physical path or locality the disk answered to a query of this path, opened files and directories are authorized and unchanged, and every recorded missing file was reported missing |
| `AuditAnswers.CleanQuerySucceeds` | topo-check/extractor/CppAuditFileSystem.cpp:128-281 | a clean answer within the quotas that agrees with the earlier ones on place, metadata and bytes is recorded as a success and fails nothing |
| `AuditSources.OtherDirectoryFails` | topo-check/extractor/CppAuditFileSystem.cpp:322-327 | a change of directory keeps the file system usable iff it names the directory it has, and then changes nothing |
| `AuditRuns.UnusableStays` | topo-check/extractor/CppAuditFileSystem.cpp:65-75 | a fresh file system is usable iff its directory is available, absolute, short enough and without NUL; otherwise it stays failed over any run |
| `AuditRuns.RunEvolves` | topo-check/extractor/CppAuditFileSystem.cpp:76-127 | over any run observations and keys only grow, nothing is recorded after the seal, the first failure stays |
| `AuditRuns.Replay` | topo-check/extractor/CppAuditFileSystem.cpp:105-111 | a query answered once is answered the same way after any further run, whatever the disk now says |
| `AuditRuns.SealedQueryFails` | topo-check/extractor/CppAuditFileSystem.cpp:112-112 | an unobserved query after the seal fails the file system for good with that reason |
| `AuditRuns.EmptyRealPathEscapes` | topo-check/extractor/CppAuditFileSystem.cpp:229-243 | an empty resolved path breaks the one-view property, by a concrete run |
| `TomlText.IntRoundTrip` | runtime/include/topo/config.h:326-358 | an integer's text reads back as that integer iff it is not date-shaped |
| `TomlScalars.DateIff` | runtime/include/topo/config.h:326-358 | a bare token is a date iff it is neither Boolean word and passes the date test on its characters |
| `TomlScalars.FloatIff` | runtime/include/topo/config.h:326-358 | any other token is a float iff it has a point or an exponent letter |
| `TomlScalars.IntegerToken` | runtime/include/topo/config.h:326-358 | a decimal number with sign and leading zeros is that integer, or an error outside 64 bits; what follows it is ignored |
| `TomlScalars.NoToken` | runtime/include/topo/config.h:326-358 | a token without a number at its start is an error |
| `TomlText.TomlEscape` | runtime/include/topo/config.h:118-130 | the escaping loop equals the escaping function |
| `TomlText.ValueText` | runtime/include/topo/config.h:148-196 | the value writer gives the specified text, and fails exactly on values without a schema type |
| `TomlValues.ValueRead` | runtime/include/topo/config.h:260-372 | reading a written value gives it back, date-shaped integers misread, for any text behind it |
| `TomlValues.ValueRoundTrip` | runtime/include/topo/config.h:148-372 | a float-free, record-free value comes back exactly iff no integer in it is date-shaped |
| `TomlValues.ReadValue` | runtime/include/topo/config.h:360-372 | the index-advancing reader agrees with the specified parser, value and position or error |
| `TomlLayout.LooseRead` | runtime/include/topo/config.h:245-372 | a value laid out with any blanks around its parts, arrays and inline tables included, reads as that value |
| `TomlLayout.WrittenIsLoose` | runtime/include/topo/config.h:148-196 | the written text is one of these layouts |
| `TomlTables.InsertNests` | runtime/include/topo/config.h:70-92 | inserting one more key without a dotted prefix keeps all stored entries and adds exactly the new one |
| `TomlNesting.SplitNested` | runtime/include/topo/config.h:64-94 | the loop over the map in key order computes the specified nesting of any map |
| `TomlNesting.BelowIsLost` | runtime/include/topo/config.h:70-92 | in key order, a key with a dotted prefix in the map changes nothing when it is inserted |
| `TomlNesting.NestKeeps` | runtime/include/topo/config.h:64-94 | the nested tables store exactly the entries whose key has no dotted prefix in the map; that is all of them iff the map is prefix-free |
| `TomlDocument.EmitToml` | runtime/include/topo/config.h:201-238 | the writer sorts and prints scalars before sub-sections, as specified |
| `TomlDocument.TableInOrder` | runtime/include/topo/config.h:201-238 | the printed settings and the sections ascend in their keys, and together are exactly the fields |
| `TomlDocument.ParseToml` | runtime/include/topo/config.h:379-416 | the line reader equals the specified reading of the text |
| `TomlLines.IdleAnywhere` | runtime/include/topo/config.h:379-416 | a comment or blank line in front of, between or behind any lines changes nothing |
| `TomlLines.IndentedAnywhere` | runtime/include/topo/config.h:379-416 | indenting any line changes nothing |
| `TomlLines.SettingRead` | runtime/include/topo/config.h:379-416 | behind any readable text, a section with a setting in any layout adds or replaces exactly that setting |
| `TomlLines.MalformedFails` | runtime/include/topo/config.h:379-416 | a line without a closing bracket, equals sign or readable value anywhere is an error |
| `TomlLines.ExactIff` | runtime/include/topo/config.h:107-416 | a setting is read exactly iff it has no table in an array and no date-shaped integer |
| `TomlLines.ArrayTableMarked` | runtime/include/topo/config.h:107-114 | a table in an array is read with the marker as one more field |
| `TomlRoundTrip.DocumentRead` | runtime/include/topo/config.h:201-416 | reading a written table gives every leaf under its dotted key and no other key |
| `TomlRoundTrip.BridgeRoundTrip` | runtime/include/topo/config.h:64-416 | for tables that store exactly a map, read(write(tables)) is the map iff no integer is date-shaped |
| `TomlRoundTrip.WrittenMap` | runtime/include/topo/config.h:64-416 | for every clean map, read(write(nest(m))) is the entries without a dotted prefix, and m itself iff m is prefix-free and no integer is date-shaped |
| `TomlRoundTrip.PrefixLosesEntry` | runtime/include/topo/config.h:64-94 | two settings, one key a dotted prefix of the other: exactly the shorter one comes back |
| `TomlRoundTrip.WriteAndRead` | runtime/include/topo/config.h:64-416 | the same for the imperative nesting, writing and reading composed |
| `TomlRecords.RecordIsFlattened` | runtime/include/topo/config.h:47-238 | a stored table, nested ones included, comes back as one setting for each of its leaves, under its key and a dot, and not under its own key |
| `TomlRecords.MarkedIsKept` | runtime/include/topo/config.h:47-238 | a table with the marker is written on one line and read back as one value without it |
| `ConfigValues.BeforeMeans` | runtime/include/topo/config.h:64-94 | keys are ordered by their characters, a proper prefix first |
| `LayeredConfig.BuildKeyMeaning` | runtime/include/topo/config_model.h:156-174 | a key is a build key iff it is a build section or lies below one |
| `LayeredConfig.ConfigStore.Declare` | runtime/include/topo/config_model.h:500-503 | a policy is stored unless its key is a build key |
| `LayeredConfig.UndeclaredPolicy` | runtime/include/topo/config_model.h:505-527 | a key without a policy is readable at level 0, untagged and of low impact |
| `LayeredConfig.ConfigStore.InstallInlined` | runtime/include/topo/config_model.h:416-419 | the new layer replaces the old one whole, or a build key refuses it and nothing changes |
| `LayeredConfig.ConfigStore.Set` | runtime/include/topo/config_model.h:596-602 | build key, schema type and level are checked in this order before anything is written |
| `LayeredConfig.ConfigStore.ResolveKey` | runtime/include/topo/config_model.h:439-449 | the most explicit layer wins, with its name |
| `LayeredConfig.ConfigStore.Query` | runtime/include/topo/config_model.h:529-541 | exactly the visible keys with the wanted tags, in strict order |
| `LayeredConfig.ConfigStore.MaxReadLevel` | runtime/include/topo/config_model.h:522-527 | the least non-negative level that sees every key |
| `LayeredConfig.ConfigStore.Browse` | runtime/include/topo/config_model.h:611-645 | one true row per queried key, in order, typed by its effective value or else by its default; it cannot fail on a clean store with levels for all impacts |
| `LayeredConfig.SortedUnique` | runtime/include/topo/config_model.h:429-434 | the key order is determined by the key set |
| `LayeredConfig.ChangeEffect` | runtime/include/topo/config_model.h:500-602 | a rejected change changes nothing; an accepted one only its key's effective value, and not when injected |
| `LayeredConfig.RunStaysClean` | runtime/include/topo/config_model.h:500-602 | over any changes a clean store stays clean |
| `LayeredConfig.RunResolves` | runtime/include/topo/config_model.h:439-456 | in every state reached from a clean one every key resolves to a value with a schema type |
| `LayeredConfig.RunLastWriteWins` | runtime/include/topo/config_model.h:439-602 | a key that is not injected has the value of its last accepted write |
| `LayeredConfig.BuildKeysRefused` | runtime/include/topo/config_model.h:416-602 | a key of the build file can be neither read, written, declared nor installed |
| `LayeredConfig.WriteIff` | runtime/include/topo/config_model.h:596-602 | a write is accepted iff the key is none of the build file, the value has a schema type and the level reaches that of the impact |
| `LayeredConfig.LayersShade` | runtime/include/topo/config_model.h:439-449 | injected values shade external ones, these inlined ones; a key in no layer is not set |
| `LayeredConfig.RunPolicy` | runtime/include/topo/config_model.h:500-508 | after any changes a key has the policy declared last |
| `LayeredConfig.RunKeys` | runtime/include/topo/config_model.h:429-434 | after any changes the keys are those there were and those written |
| `LayeredConfig.RunLists` | runtime/include/topo/config_model.h:500-541 | after any changes a query lists exactly the keys with a value within the last declared read level and tags |
| `LayeredConfig.RunListsUndeclared` | runtime/include/topo/config_model.h:500-541 | an undeclared key with a value is listed iff the level is not negative and no tag is wanted |
| `LayeredConfig.InstallClean` | runtime/include/topo/config_model.h:416-419 | a new inlined layer is accepted iff it has no build key, and keeps the store clean iff its values have schema types |
| `MachImage.InspectDylib` | topo-build/IsolatedCppBuild.cpp:151-200 | accepts exactly the images whose commands tile their area, import only the system library, and define exactly the exports; no read or sum leaves its width |
| `MachBytes.AcceptedIff` | topo-build/IsolatedCppBuild.cpp:151-200 | acceptance is exactly the condition on the bytes: header words, command lengths from offset 32, libraries of the four import words, three refused words, the last table and its symbols |
| `MachImage.ReadCommand` | topo-build/IsolatedCppBuild.cpp:168-179 | one turn of the command loop decodes the command or refuses it, or a second table |
| `MachImage.ReadCommands` | topo-build/IsolatedCppBuild.cpp:166-181 | the loop collects all commands, libraries and the table, or no image with these bytes is acceptable |
| `MachImage.AfterMeans` | topo-build/IsolatedCppBuild.cpp:166-181 | the collected cursor, libraries and table are those of the declarative command list |
| `MachImage.TableDecides` | topo-build/IsolatedCppBuild.cpp:171-183 | the table held at the end is the last one, and its symbols decide |
| `MachImage.ReadSymbols` | topo-build/IsolatedCppBuild.cpp:184-196 | the names of all external symbols, or refusal iff one is not a plain readable definition |
| `MachEncoder.ImageAccepted` | topo-build/IsolatedCppBuild.cpp:151-200 | every image of the reference encoder, for any ignored commands and NUL-free names within 16 MiB, is accepted for exactly its names |
| `MachEncoder.DecodedHere` | topo-build/IsolatedCppBuild.cpp:168-179 | the reader decodes encoded commands to what they encode |
| `TemplateClause.TemplateClause` | topo-transpile/CppEmitter.cpp:100-268 | the emitting loops give the specified clause: filtered parameters, notes, conjunction |
| `TemplateClause.CleanParam` | topo-transpile/CppEmitter.cpp:109-135 | lifetime and union bounds go, the others keep their order, and a dropped union is reported |
| `TemplateReading.ClauseRead` | topo-transpile/CppEmitter.cpp:100-268 | a clause begins with its keyword and a list that reads back to the filtered parameters, in front of the notes and the requires part |
| `TemplateReading.ListRead` | topo-transpile/CppEmitter.cpp:137-210 | the printed list reads back: form, name and default of every parameter in order |
| `TemplateReading.KeptMeans` | topo-transpile/CppEmitter.cpp:109-135 | the kept bounds are all but lifetimes and unions, as often as they were |
| `TemplateReading.KeptInOrder` | topo-transpile/CppEmitter.cpp:109-135 | the kept bounds stay in order |
| `TemplateReading.FilteredParts` | topo-transpile/CppEmitter.cpp:100-135 | parameters are filtered one by one: lifetimes go, the others keep their order and all but their bounds |
| `TemplateReading.CleanedBounds` | topo-transpile/CppEmitter.cpp:109-135 | the bounds of a cleaned type parameter, constraint first, are the kept ones of the original |
| `TemplateReading.UnionNoted` | topo-transpile/CppEmitter.cpp:109-268 | a parameter is named in a union note iff it loses a union bound |
| `RequiresClause.AttachRequiresClauseBounds` | topo-check/extractor/main.cpp:405-597 | updates the parameters in place with every bound of the clause, or leaves them alone and notes it |
| `RequiresClause.ParseClause` | topo-check/extractor/main.cpp:502-577 | the index loop stages the bounds of the clause as specified |
| `RequiresClause.ConjunctionRead` | topo-check/extractor/main.cpp:502-577 | an emitted conjunction is read back whole before a terminator, and not at all otherwise |
| `RequiresClause.CommitAll` | topo-check/extractor/main.cpp:582-597 | committing the staged bounds of the first k parameters restores exactly those |
| `RequiresClause.RestoredIff` | topo-transpile/CppEmitter.cpp:100-268 | a multi-bound clause is restored in full iff no note precedes `requires` and a terminator follows; otherwise nothing changes |
| `ExpressionText.ParseEmit` | topo-transpile/CppEmitter.cpp:696-734 | on the fragment (all operators, prefix forms but minus before minus, postfix forms, calls, members and indexes of atoms, texts) parsing reads back exactly the printed expression and stops where it ends |
| `ExpressionText.EmitInjective` | topo-transpile/CppEmitter.cpp:696-802 | on the fragment no two expressions print alike |
| `ExpressionText.ParseTopEmit` | topo-transpile/CppEmitter.cpp:696-802 | parsing reads back compound assignments with their operator and both sides |
| `ExpressionText.TopInjective` | topo-transpile/CppEmitter.cpp:696-802 | no two compound assignments, nor one and a fragment expression, print alike |
| `ExpressionText.OpRead` | topo-transpile/CppEmitter.cpp:270-292 | each of the eighteen operators between spaces is recognised as itself |
| `ExpressionText.AmbiguousOutside` | topo-transpile/CppEmitter.cpp:702-716 | outside the fragment, pairs of different expressions that print alike |
| `ArrayLayout.UnwrapArrayShape` | topo-debug/adapter.cpp:246-261 | the loop gives the dimensions outermost first and the leaf type |
| `ArrayLayout.ShapeInside` | topo-debug/adapter.cpp:246-261 | however inconsistent the byte sizes, the announced elements fit the variable |
| `ArrayLayout.ShapeExact` | topo-debug/adapter.cpp:246-261 | consistent sizes give the declared dimensions, and the elements fill the variable |
| `ArrayLayout.RowMajorStrides` | topo-debug/adapter.cpp:265-275 | the backward loop fills the stride array, and no product overflows |
| `ArrayLayout.ShapeNoOverflow` | topo-debug/adapter.cpp:265-275 | shapes from types below 2^63 bytes meet the loop's overflow condition |
| `ArrayLayout.ElementsDisjoint` | topo-debug/adapter.cpp:265-275 | distinct in-bounds indices have disjoint byte ranges |
| `ArrayLayout.ElementsCover` | topo-debug/adapter.cpp:265-275 | the element ranges cover exactly the total size |
| `ArrayLayout.VariableCovered` | topo-debug/adapter.cpp:246-275 | with consistent sizes, shape and strides together account for every byte of the variable |
| `ArrayLayout.TryBuildStructBlock` | topo-debug/adapter.cpp:291-361 | accepts exactly the non-empty aggregates of plain chained members, with their names, offsets and types |
| `ArrayLayout.DtypeIs` | topo-debug/adapter.cpp:208-241 | the wire type of a member is the one named for its kind and byte size, and none otherwise |
| `ArrayLayout.AscendingIff` | topo-debug/adapter.cpp:338-346 | accepted fields are ascending and disjoint iff no field end but the last wraps |
| `ArrayLayout.WrappedOverlap` | topo-debug/adapter.cpp:338-346 | a wrapped end lets an overlapping field through |
| `ArrayLayout.LeavesDisjoint` | topo-debug/adapter.cpp:265-361 | with fields inside the stride, no two (index, field) leaves share a byte |
| `LineMarkers.DecodeLineMarkerFile` | topo-check/analysis/catalog/CppPreprocessorScanner.cpp:37-65 | the loop computes the decoding and throws exactly where it is undefined |
| `LineMarkers.DecodeInvertsEncode` | topo-check/analysis/catalog/CppPreprocessorScanner.cpp:37-65 | decoding gives back every NUL-free name from its octal-escaped form |
| `LineMarkers.DecodeLetters` | topo-check/analysis/catalog/CppPreprocessorScanner.cpp:37-65 | each letter escape decodes to its own control character, quote or backslash |
| `LineMarkers.DecodeRefuses` | topo-check/analysis/catalog/CppPreprocessorScanner.cpp:37-65 | any other escaped character, and a backslash at the end, is an error |
| `LineMarkers.BuildLineMap` | topo-check/analysis/catalog/CppPreprocessorScanner.cpp:67-103 | each other line maps to the last marker's file at its line plus the distance; fails iff a marker cannot be read |
| `LineMarkers.OriginBehind` | topo-check/analysis/catalog/CppPreprocessorScanner.cpp:67-103 | the lines behind a marker come from its file, numbered on from its number, with its system flag |
| `MacroScan.ScanOutput` | topo-check/analysis/catalog/CppPreprocessorScanner.cpp:177-204 | the lazily counted subtraction reports the remaining sites in order, and is complete iff every named file can be extracted |
| `MacroScan.RemainingCount` | topo-check/analysis/catalog/CppPreprocessorScanner.cpp:185-202 | per file, line and callee the remaining count is max(0, expanded - raw) |
| `MacroScan.RemainingAt` | topo-check/analysis/catalog/CppPreprocessorScanner.cpp:185-202 | the same counts on file, line and callee of the sites themselves |
| `MacroScan.MappedSites` | topo-check/analysis/catalog/CppPreprocessorScanner.cpp:181-189 | mapping keeps exactly the sites whose line comes from no system header, moved to that line |
| `MacroScan.ReportedCount` | topo-check/analysis/catalog/CppPreprocessorScanner.cpp:142-211 | the whole scan reports a call as often as it remains, counted afresh in every output |
| `MacroScan.RemainingInOrder` | topo-check/analysis/catalog/CppPreprocessorScanner.cpp:185-202 | the remaining sites keep their order |
| `MacroScan.ScanDetailed` | topo-check/analysis/catalog/CppPreprocessorScanner.cpp:142-211 | outputs are scanned with fresh counts each; completeness iff all of them can be read |
| `StripComments.StripComments` | runtime/include/topo/app_static.h:100-164 | the character loop computes the six-state machine |
| `StripComments.NewlinesStay` | runtime/include/topo/app_static.h:137-152 | the number of newlines is the same for every input and state |
| `StripComments.Idempotent` | runtime/include/topo/app_static.h:97-164 | a second pass changes nothing, also with unterminated comments and strings |
| `StripComments.StripTokens` | runtime/include/topo/app_static.h:97-164 | in step (no slash in code directly in front of a literal) the output is the text with every comment reduced to its newlines, less a last slash in code |
| `StripComments.LiteralsKeptIff` | runtime/include/topo/app_static.h:112-133 | behind any code read in step every literal is kept iff the code does not end in a slash |
| `StripComments.LiteralLosesText` | runtime/include/topo/app_static.h:124-133 | directly behind a slash, a literal with two slashes in it loses them |
| `StripComments.CommentStays` | runtime/include/topo/app_static.h:124-133 | directly behind a slash, a literal of the other quote keeps the comment behind it from being stripped |
| `StripComments.TokensUnique` | runtime/include/topo/app_static.h:97-164 | the tokens of a text are the only valid tokens with that text, so the grammar the promise is stated in is unambiguous |
| `StripComments.UnchangedIff` | runtime/include/topo/app_static.h:97-164 | a text read in step is left alone iff it has no comment and does not end in a slash in code |

## Left out

- HeaderClosure.AuditInputIdentity: that a refusal at a limit was unavoidable is stated for single files and candidates only, since how much a closure has used up before depends on the units before it.
- Reading of a unit's argument strings into search roots, forced files and definitions; environment variables, the read policy, digest comparison against the compile model, Windows reparse points and symlink lists.
- Comment stripping and line splicing in front of the header scan: a source is the list of directives it contains, and a `-D` or `-U` argument is its text behind that step. Digests are taken as collision-free, so an input record holds the content itself. The disk does not change while a key is computed.
- A preprocessor run is a history-driven oracle for branches, the order of search directories and re-entry of files; macro functions and token pasting are refused by the scan and so do not occur.
- PreprocessorRuns.CacheKeySound: paths that reach one file with a single link are taken to have one physical path (`Coherent`), as a file system guarantees.
- AuditRecorder.Recorder.RecordAt: one oracle value holds all answers of the disk during one query, so the several disk calls inside one query are answered from it; a new value is chosen at every query.
- Buffers and names handed out by the recording file system, hard-link counts, `EINTR` retries and file descriptors.
- TomlNesting.SplitNested: the moving cursor into nested records is modelled on values, so aliasing of the cursor is not captured; what is written below a stored value goes into an unread part of it and is modelled as lost.
- Floats keep their text in the configuration model; their formatting and parsing is not modelled.
- TomlRoundTrip.WrittenMap: keys are dotted lists of non-empty names without quotes, brackets, blanks, `=` or line breaks, which the writer does not escape; values hold no float and no table (`TomlRecords.RecordIsFlattened` covers tables).
- The worklist over tool libraries, process launching, sandboxing and every other step of an isolated build around the image inspection.
- TemplateClause.TemplateClause: emits lexer tokens, so spacing, the final line break and the lexing of the text are not modelled; a note keeps only its kind and subject.
- ExpressionText.EmitInjective: lambdas, constructor calls, minus before minus, and members or indexes of numbers and of prefix forms are outside the fragment; a compound assignment is covered at the top and on the right of another one (`ExpressionText.TopInjective`).
- StripComments.StripTokens: raw strings, digit separators and spliced lines are no tokens of their own; the code does not know them either.
- LineMarkers.BuildLineMap: lines arrive split by the marker pattern; line counters are unbounded.
- MacroScan.ScanDetailed: the extractor is an arbitrary function of a file; the temporary file it reads is not modelled, and after an error only the completeness flag is specified.
- ArrayLayout.TryBuildStructBlock: error texts are shortened, and debugger queries are a record of answers.
