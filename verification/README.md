# Crash analytics: a verified model

A device that crashes sends a report. The service parses it, resolves its addresses against the symbols of a
firmware build, derives a signature from the call chain and files the report in the group of that signature.
Engineers triage groups, ask a knowledge base for help and sign in through a browser client. This project models
five parts of that system in Dafny and proves what they promise.

- **Grouping** (`CrashDatabase`, `GroupAccounting`, `GroupTheorems`, `GroupHistory`, `GroupAgreement`, `Refiling`,
  `WindowOrder`, `Ingestion`, `SymbolicationService`). The tables and every call on them are functions from tables to tables;
  `SymbolicationService` is the same as objects whose fields are updated in place, each method proved to do what
  the function says. The theorems are about `Run(EMPTY, events, hash)` for every list of events: a group's
  denormalised counters against a recount, its window, severity and status, and its agreement with its members.
- **From addresses to signatures** (`ElfIndex`, `StackAnalyzer`, `Signature`, `Relocation`, `CallChain`). A binary
  search over a sorted index, a stack scan that leaves early, which frames and names come out of it, and a signature
  that must not depend on where the linker put the code.
- **Chunking and retrieval** (`TextNormalization`, `Respacing`, `Chunking`, `ChunkingTheorems`, `KnowledgeBase`,
  `Retrieval`). Overlapping windows that retreat to natural boundaries, the documents and chunks stored, and ranking
  by exact cosine scores.
- **Sessions** (`AuthTables`, `AuthService`, `Accounts`, `SessionTheorems`, `LockoutTheorem`, `ApiClient`,
  `ProtocolOnService`). Rotating refresh tokens, reset links and lockout on the server, over every run of calls; the
  client's single-flight refresh and the server as one state machine, over every interleaving with a network that
  loses and delays answers, each of which is a run of the service.
- **Parsing** (`HexAddress`, `CrashParser`, `StackDump`, `DumpTheorems`). Addresses in text and back, which registers
  and words a dump is read as, and dumps that are fixed points of their own parser.

`Wrappers`, `Sets`, `Sequences`, `StableSort`, `Text` and `Arithmetic` hold what several parts need.
`dafny verify dfyconfig.toml` checks everything.

Where the code and its own comments differ, the model follows the code:

- `recompute_counters` is documented as the repair after deletions, but deleting a report does not call it. Counters
  are therefore exact only up to the deletions since the last recount (`CountersMatchIffNoDrift`).
- `recompute_counters` leaves the window of a group that has become empty, so a window can outlive the reports it
  came from: `WindowCoversAndIsTightIff` says exactly when it does not, `DeletingAnExtremeLoosensTheWindow` and
  `RefilledWindowFitsIff` show runs in which it does. The window of a group a batch empties can depend on the order
  of the batch (`BatchOrderLeavesTheWindowIff` says exactly when it does not).
- The hashed text of a signature joins its parts with `|` and `>`, which the parts may hold themselves.
  `ToldApartIffClean` says exactly which bugs it tells apart, `BarInFirmwareCollides` shows two it does not.
- `lookup_symbol` looks at one candidate only and misses an address that a symbol further back covers
  (`LookupCompleteIff` says exactly when it misses none).
- The stack filter rejects zero by value, so moving the whole image by an offset can turn a zero word into a frame
  (`ShiftRelocatesIff` says exactly when, `ZeroWordChangesTheNames` shows it).
- `chunk_text` is documented to keep a fact that spans a boundary retrievable. From an overlap of max(2, size/2) on
  it does not (`PassagesSurviveIff`), although every such overlap is accepted, and so are negative ones, which skip
  text (`NothingIsSkippedIff`).
- A document that failed to index keeps its content hash, so uploading the same content again is refused as known
  until the failed document is deleted (`FailedUploadBlocksARetry`).

## Model

| member | source | states |
|---|---|---|
| `GroupTheorems.DeleteFreeRunsCountExactly` | backend/app/services/symbolication.py:295-320 | After any run without deletions, whatever frames the builds of the moment resolve, every group's occurrence count, device count and firmware set are what a recount of its reports gives, groups left empty included. |
| `GroupTheorems.CountersMatchIffNoDrift` | backend/app/repositories/crash_group.py:95-130 | After any run at all, the incrementally kept counters equal a recount exactly when no member was deleted since they were last rebuilt; the occurrence count is off by just the number deleted since. |
| `GroupTheorems.DeletingAMemberBreaksTheCounters` | backend/app/services/crash.py:372-393 | Deleting a grouped report always leaves its group's counters wrong: deletion does not recount, although the recount is documented as the repair for it. |
| `GroupTheorems.RecountMatches` | backend/app/repositories/crash_group.py:95-130 | A recount makes occurrences, distinct devices, firmware versions and window those of the group's reports and leaves everything else, the window of a group without reports included. |
| `GroupTheorems.WindowCoversAndIsTightIff` | backend/app/repositories/crash_group.py:112-115 | In every reachable state a group's window covers all members, and it is their exact first and last time if and only if the times it still remembers from deleted reports or from before it was emptied lie within theirs. |
| `GroupTheorems.DeletingAnExtremeLoosensTheWindow` | backend/app/services/crash.py:372-393 | After any run, deleting the single first or last occurrence of a group that keeps others leaves the group's window too wide. |
| `GroupTheorems.RefilledWindowFitsIff` | backend/app/repositories/crash_group.py:112-115 | After any run, a report filed into a group without members stands there alone, and the window fits it if and only if it showed just the report's time before. |
| `GroupTheorems.NeverEmptiedIsTight` | backend/app/services/symbolication.py:322-328 | Over a run without deletions, a group that never stood empty shows exactly the times of its first and last occurrence. |
| `GroupTheorems.SeverityIsTheWorstFiled` | backend/app/services/symbolication.py:330-336 | In every reachable state a group's severity is the worst any filing into it carried, and a regression time is found only on a group whose status is regressed. |
| `GroupTheorems.MemberIsWorseIffReRated` | backend/app/services/symbolication.py:330-336 | Over every run a member is more severe than its group, critical before high before medium before low, exactly if it was re-rated by hand since it was last filed, to something more severe than the group. |
| `GroupHistory.SeverityByName` | backend/app/services/symbolication.py:330-336 | Over every run a group is critical if and only if some filing into it carried critical, high if and only if some carried high and none critical, medium if and only if some carried medium and none worse, and low otherwise. |
| `GroupHistory.StatusByCalls` | backend/app/api/v1/endpoints/crash_groups.py:158-172 | Over every run a group's status is what it was last triaged to, except that a group resolved last and filed into since is regressed; a group never triaged is open. |
| `GroupHistory.RegressionTimeByCalls` | backend/app/services/symbolication.py:350-365 | Over every run a group has a regression time if and only if a filing found it resolved, and then it is that filing's time, for as long as nobody triages it to anything but regressed. |
| `GroupHistory.ReportByCalls` | backend/app/services/symbolication.py:85-125 | Over every run a report is as it arrived, its severity what it was last re-rated to; it shows the time of its last symbolication, the signature of the frames found then, the name of the innermost of them and a group of that signature. |
| `GroupTheorems.FilingRegressesResolved` | backend/app/services/symbolication.py:350-365 | No filing leaves its destination group resolved: a resolved group becomes regressed, any other keeps its status, and no other group's status changes. |
| `GroupAccounting.HistoryKeepsInv` | backend/app/services/symbolication.py:259-320 | Every step of every run keeps the accounting invariant: counters up to the deletions since the last recount, window, severity and status of each group explained by its reports and its history. |
| `GroupAccounting.FilingKeepsKeys` | backend/app/repositories/crash_group.py:19-21 | A filing keeps signatures unique among groups and every group reference pointing at a group. |
| `GroupAgreement.GroupedReportsAgree` | backend/app/services/symbolication.py:108-125 | With an injective hash and clean names and versions, in every reachable state each grouped report, with the frames it was last filed with, says of the bug what its group says: signature, components, fault type, task, top function and the title it would be given. |
| `Refiling.FilingTwiceOnlyRestamps` | backend/app/services/symbolication.py:85-97 | Symbolicating a report twice in a row with the same build changes nothing but its timestamp. |
| `Refiling.BatchOrderIsIrrelevant` | backend/app/services/symbolication.py:378-389 | From every state any run reaches, deletions included, re-symbolicating the same reports in any other order gives the same partition by signature and per signature the same counts, devices, versions, severity and status. |
| `Refiling.OrderIsIrrelevantFrom` | backend/app/services/symbolication.py:378-389 | The same from any tables with unique signatures and valid references, whether the counters are right or not. |
| `WindowOrder.BatchMoves` | backend/app/services/symbolication.py:295-328 | Re-symbolicating a batch acts on the members and the window of one signature's group as single moves do: joining widens the window, leaving sets it to the remaining members if there are any. |
| `WindowOrder.BatchOrderLeavesTheWindowIff` | backend/app/services/symbolication.py:378-389 | From any tables with unique signatures and valid references, every order of a batch leaves a signature's group with the same window if and only if nobody leaves it, or some member stays, or what the emptied group keeps is covered by the reports that join it or, if none joins, does not tell who left last. |
| `WindowOrder.EmptiedGroupTellsTheOrder` | backend/app/repositories/crash_group.py:112-115 | If a batch moves every member of a group elsewhere, two of them from different times, and nobody joins, then some other order of the batch leaves another window. |
| `Ingestion.RunsKeepSeparated` | backend/app/repositories/crash.py:204-221 | In every state any run reaches, two stored reports of the same device, fault type and program counter lie more than a minute apart. |
| `Ingestion.BurstsAreBounded` | backend/app/repositories/crash.py:204-221 | Any span of T seconds holds at most T/60 + 1 stored reports of one crash. |
| `Ingestion.ResubmissionIsRecognised` | backend/app/services/crash.py:104-125 | Submitting a stored report's payload again answers with that very report and changes neither reports nor groups. |
| `Ingestion.IngestStoresIff` | backend/app/services/crash.py:104-150 | In every reachable state an ingest stores a new row if and only if each stored report of the same device, fault type and program counter lies more than a minute away; otherwise it answers with one that lies nearer and changes nothing. |
| `Ingestion.FirstReportIsStored` | backend/app/repositories/crash.py:204-221 | A device without stored reports is never refused, whatever other devices have sent. |
| `SymbolicationService.CrashGroup.WidenWindow` | backend/app/services/symbolication.py:322-328 | The window becomes the hull of the old one and the report's time; nothing else changes. |
| `SymbolicationService.CrashGroup.EscalateSeverity` | backend/app/services/symbolication.py:330-336 | The severity becomes the report's if that is worse, and stays otherwise. |
| `SymbolicationService.CrashGroup.RecordFirmwareVersion` | backend/app/services/symbolication.py:338-348 | The report's firmware version is added to the set of affected versions. |
| `SymbolicationService.CrashGroup.MaybeRegress` | backend/app/services/symbolication.py:350-365 | A resolved group becomes regressed at this time; any other is left alone. |
| `SymbolicationService.CrashGroup.SetStatus` | backend/app/api/v1/endpoints/crash_groups.py:168-172 | The status is set, and the regression time survives only if the status is regressed. |
| `SymbolicationService.CrashStore.GetBySignature` | backend/app/repositories/crash_group.py:19-21 | Finds the one group with the signature if there is one, and none otherwise. |
| `SymbolicationService.CrashStore.DistinctDeviceCount` | backend/app/repositories/crash_group.py:132-136 | The number of different devices among the group's reports. |
| `SymbolicationService.CrashStore.RecomputeCounters` | backend/app/repositories/crash_group.py:95-130 | Counters, devices, versions and window are rebuilt from the reports alone; the window of a group without reports stays. |
| `SymbolicationService.CrashStore.CreateGroup` | backend/app/services/symbolication.py:273-293 | A new, empty, open group whose title, task, top function and window come from the report; all other rows stay. |
| `SymbolicationService.CrashStore.FindOrCreate` | backend/app/services/symbolication.py:269-293 | The group with this signature is in the table afterwards, created only if there was none; no report changes. |
| `SymbolicationService.CrashStore.Leave` | backend/app/services/symbolication.py:295-303 | The group a report moves out of is recounted without it; a report that stays changes no group. |
| `SymbolicationService.CrashStore.Join` | backend/app/services/symbolication.py:305-320 | The report ends up in the group, is counted once however often it is filed there, and the group shows the distinct devices of its members. |
| `SymbolicationService.CrashStore.CountAndTouch` | backend/app/services/symbolication.py:305-312 | Counts a report that was not counted yet, then widens, escalates, records the version and regresses. |
| `SymbolicationService.CrashStore.Transfer` | backend/app/services/symbolication.py:295-320 | Leaving the old group and joining the new one, on the object tables, are the two stages of a filing and touch no other row. |
| `SymbolicationService.CrashStore.AssignGroup` | backend/app/services/symbolication.py:259-320 | Grouping a stamped report, step by step on the objects, turns the tables into what one filing makes of them. |
| `SymbolicationService.CrashStore.Stamp` | backend/app/services/symbolication.py:108-123 | The report carries the time, top function and signature of its symbolication; no other row changes. |
| `SymbolicationService.CrashStore.Symbolicate` | backend/app/services/symbolication.py:99-145 | Symbolicating a report is one filing of it; an unknown report is an error that changes nothing. |
| `SymbolicationService.CrashStore.ResymbolicateForBuild` | backend/app/services/symbolication.py:369-402 | The loop over a batch is the run of its filings in order; it counts the reports processed and those with a resolved frame. |
| `SymbolicationService.CrashStore.FindRecentDuplicate` | backend/app/repositories/crash.py:191-221 | Finds a stored report of the same device, fault type and program counter within a minute either way, exactly if there is one. |
| `SymbolicationService.CrashStore.AddReport` | backend/app/services/crash.py:127-150 | One new ungrouped row; every other row and every group stays. |
| `SymbolicationService.CrashStore.Ingest` | backend/app/services/crash.py:104-185 | A duplicate is answered with the stored report and changes nothing; otherwise the report is stored, and filed unless symbolication fails. |
| `SymbolicationService.CrashStore.UpdateReport` | backend/app/services/crash.py:335-359 | Re-rating a report changes its severity and no group; an unknown report and an update without changes are errors that change nothing. |
| `SymbolicationService.CrashStore.UpdateGroup` | backend/app/api/v1/endpoints/crash_groups.py:158-172 | Triage changes one group's status and regression time; an unknown group and an update without changes are errors that change nothing. |
| `SymbolicationService.CrashStore.DeleteReport` | backend/app/services/crash.py:372-393 | Exactly the report's row goes; every group stays as it was. |
| `ElfIndex.BisectRight` | backend/app/services/elf_parser.py:388 | The number of leading start addresses that are at most the address. |
| `ElfIndex.LookupSymbol` | backend/app/services/elf_parser.py:379-392 | The answer of the lookup function about which the next rows speak. |
| `ElfIndex.LookupIsSound` | backend/app/services/elf_parser.py:379-392 | A lookup in a built index only answers with a symbol of the table whose range covers the address. |
| `ElfIndex.LookupCompleteIff` | backend/app/services/elf_parser.py:375-392 | Every covered address resolves if and only if the index has no gap after an entry that an earlier symbol reaches into. |
| `ElfIndex.DisjointLookupIsScan` | backend/app/services/elf_parser.py:379-392 | For disjoint ranges a lookup finds exactly the symbol a linear scan for a covering symbol finds. |
| `ElfIndex.DisjointLookupIgnoresTableOrder` | backend/app/services/elf_parser.py:373-377 | For disjoint ranges the order of the table does not matter. |
| `ElfIndex.LookupAnswersTheNearest` | backend/app/services/elf_parser.py:373-392 | For every table, overlapping ranges included: of the symbols that start at or before an address one that starts last and is shortest decides; the address resolves if and only if that one covers it, and of symbols sharing its range the last in the table answers. |
| `ElfIndex.NestedSymbolHidesItsParent` | backend/app/services/elf_parser.py:388-392 | A concrete table in which a covered address does not resolve. |
| `ElfIndex.ParseMap` | backend/app/services/elf_parser.py:305-338 | One symbol per distinct non-zero address, ascending, named by its first definition and running up to the next; an error exactly if no line has a non-zero address. |
| `ElfIndex.MapTilesItsSpan` | backend/app/services/elf_parser.py:320-326 | In a parsed map an address resolves exactly when it lies between the first and the last symbol, and then to the greatest start not above it. |
| `StackAnalyzer.Push` | backend/app/services/stack_analyzer.py:118-130 | Pushing keeps the frames those of the trace so far without adjacent repeats, cut at the limit, and remembers the last address. |
| `StackAnalyzer.PushRegisters` | backend/app/services/stack_analyzer.py:132-135 | The chain starts with the program counter, then the link register unless it repeats the same address. |
| `StackAnalyzer.ScanStack` | backend/app/services/stack_analyzer.py:137-145 | The early-exit loop yields what scanning every word would have yielded. |
| `StackAnalyzer.ReconstructStack` | backend/app/services/stack_analyzer.py:88-150 | The frames are exactly the first max_frames entries of program counter, link register and plausible stack words without adjacent repeats, non-adjacent repeats kept; candidates and warnings match. With a program counter its frame is the first, and a link register elsewhere gives the second. |
| `CallChain.FramesFollowTheEvidence` | backend/app/services/stack_analyzer.py:88-150 | Every analysis, told from registers and words alone: the frames are, cut at the limit, the program counter, the link register unless it repeats that address, and then, in stack order, each word that is odd where that is asked for, not zero, inside an executable range where any is known, and no repeat of the address before it. |
| `CallChain.CandidatesFollowTheEvidence` | backend/app/services/stack_analyzer.py:137-150 | The candidates are the plausible words without their lowest bit, all of them unless the scan stopped at a full chain, and the three warnings appear exactly in their cases, in this order. |
| `CallChain.SymbolizedFrames` | backend/app/services/symbolication.py:186-202 | With symbols at hand these are the frames of a crash. |
| `CallChain.UnsymbolizedFrames` | backend/app/services/symbolication.py:154-174 | Without symbols the frames are program counter, link register and the first eight stack words as they are, unresolved. |
| `CallChain.FramePointsIntoItsFunction` | backend/app/services/symbolizer.py:144-161 | A frame shows where its address came from, whether it was odd, and the address, even on ARM; it is resolved with name and offset only if a symbol of that name starts that far before it and covers it. |
| `CallChain.HeadlineOfFrames` | backend/app/services/stack_analyzer.py:229-246 | The title names the fault with spaces for underscores and the innermost named function, else the task, else nothing more; the top function is that function cut to 255 characters. |
| `CallChain.ProgramCounterNamesTheCrash` | backend/app/services/stack_analyzer.py:98-131 | Whenever the program counter lies in a function with a name, title and top function are that function's, whatever else is on the stack. |
| `CallChain.ClonesShareAName` | backend/app/services/stack_analyzer.py:42-42 | A function and the clones a compiler makes of it, of any of six kinds and numbered or not, share one name, surrounding whitespace aside. |
| `CallChain.OneMarkGoes` | backend/app/services/stack_analyzer.py:156-158 | A name loses the longest clone mark at its end and nothing else, and without such a mark stays as it is. |
| `CallChain.FiveNamesTellTheBug` | backend/app/services/stack_analyzer.py:178-192 | The signature uses the first five names, neighbours in one function counting once; once there are five, deeper frames make no difference. |
| `CallChain.HashedTextReads` | backend/app/services/stack_analyzer.py:216-224 | The hashed text reads v1, fault type, task and names or program counter and firmware, in this order and with these separators; the program counter is written in decimal. |
| `StackAnalyzer.FullChainIsFinal` | backend/app/services/stack_analyzer.py:140-145 | Once the chain is full, further candidates cannot change it, so leaving early is safe. |
| `Sequences.CollapseIsAdjacentFree` | backend/app/services/stack_analyzer.py:118-130 | Nothing but adjacent repeats is removed: no two neighbours are equal and every element that differs from its predecessor is kept. |
| `Signature.GatherNames` | backend/app/services/stack_analyzer.py:178-192 | The names are the first five of the resolved names with neighbouring repeats collapsed. |
| `Signature.BuildSignature` | backend/app/services/stack_analyzer.py:161-226 | The signature is the hash of the text built from fault type, task and names, or from program counter and firmware without names. |
| `Signature.BuildTitle` | backend/app/services/stack_analyzer.py:229-246 | The title names the first resolved function, else the task, else the fault alone. |
| `Signature.TopFunctionOf` | backend/app/services/symbolication.py:249-254 | The normalised name of the first resolved frame, cut to the column width, or none. |
| `Signature.PayloadIsInjective` | backend/app/services/stack_analyzer.py:192-226 | The hashed text determines fault type, task and names, or fault type, task, program counter and firmware, for names without bar or angle bracket of which the first does not itself read like a program counter and a firmware; the task may hold anything. |
| `Signature.ToldApartIffClean` | backend/app/services/stack_analyzer.py:192-226 | Components share their hashed text with no other clean components if and only if they are clean: a fault type without bar, and either names without bar or angle bracket of which the first does not read like a program counter and a firmware, or a firmware without bar. |
| `Signature.UncleanCollides` | backend/app/services/stack_analyzer.py:192-226 | Whatever is not clean shares its text with something else that is. |
| `Signature.BarInFirmwareCollides` | backend/app/services/crash_parser.py:178-192 | Two reports a device can send, with bars in firmware version and task name, which are free text, share one hashed text. |
| `Signature.SeparatorInNameCollides` | backend/app/services/stack_analyzer.py:192-226 | Any name with an angle bracket in it, at the head of any names, makes two different bugs share one text. |
| `Signature.FallbackNameCollides` | backend/app/services/stack_analyzer.py:192-226 | With a first name that reads like a program counter and a firmware, a symbolicated crash shares its text with one without symbols. |
| `Relocation.ResolveFrames` | backend/app/services/symbolication.py:148-213 | Frames with a build come from the reconstructed stack; without symbols the raw addresses are kept. |
| `Relocation.NamesSurviveRelocation` | backend/app/services/stack_analyzer.py:88-150 | Any injective even relocation under which looking up a moved address gives the name the address had leaves the resolved names unchanged, for every symbol table, overlapping ones and empty ones included. |
| `Relocation.CarriedFunctionsLookUpAlike` | backend/app/services/elf_parser.py:379-392 | For tables of disjoint ranges it is enough that functions are carried onto functions of the same name and other addresses stay outside all functions. |
| `Relocation.RelocationKeepsTheGroup` | backend/app/services/stack_analyzer.py:161-246 | Under such a relocation title and top function stay, and the signature stays if and only if some frame resolves or program counter and firmware are the same, even across firmware versions. |
| `Relocation.IndexShifted` | backend/app/services/elf_parser.py:373-377 | The index of a table moved by an offset is the moved index, whatever overlaps there are in it. |
| `Relocation.ShiftMovesWordIff` | backend/app/services/stack_analyzer.py:57-85 | The filter decides a word and the word moved with everything else alike, except exactly if the word clears to zero before or after a proper move and would pass but for that. |
| `Relocation.ShiftRelocatesIff` | backend/app/services/stack_analyzer.py:57-85 | Moving symbols, executable ranges, registers and stack words by one even offset is such a relocation, for every symbol table, if and only if no stack word is one of those exceptions. |
| `Relocation.ZeroWordChangesTheNames` | backend/app/services/stack_analyzer.py:57-85 | One such stack word that changes the names found. |
| `TextNormalization.NormalizedIsNormal` | backend/app/services/ai/chunking.py:33-42 | Every normalised text is free of carriage returns, line-trailing whitespace, runs of three newlines and outer whitespace. |
| `TextNormalization.FixedIffNormal` | backend/app/services/ai/chunking.py:33-42 | A text is left unchanged exactly if it already is of that kind. |
| `TextNormalization.NormalizeIsIdempotent` | backend/app/services/ai/chunking.py:33-42 | Normalising twice is normalising once. |
| `TextNormalization.NormalizingKeepsTheText` | backend/app/services/ai/chunking.py:33-42 | Every character that is not whitespace survives, in its order. |
| `Respacing.NormalizingRespaces` | backend/app/services/ai/chunking.py:33-42 | For every text the result is the text rebuilt from its visible characters: whitespace between two of them stays as it is if it holds no line end, and otherwise becomes one newline for one line end and two for more, followed by the indentation after the last; whitespace around the text goes. Carriage return and newline together are one line end. |
| `Respacing.GapBetween` | backend/app/services/ai/chunking.py:40-42 | Wherever two visible characters stand with whitespace between them, the result has exactly the kept part of it between them and as many visible characters before and after. |
| `TextNormalization.LinesAreTrimmedInPlace` | backend/app/services/ai/chunking.py:40-41 | Splitting into lines, stripping each and joining drops exactly the whitespace in front of a newline or the end. |
| `Chunking.LastParagraphIsLast` | backend/app/services/ai/chunking.py:108-110 | The scan finds the last stretch of whitespace with two newlines, at its first newline. |
| `Chunking.LastSentenceIsLast` | backend/app/services/ai/chunking.py:112-114 | The scan finds the end of the last whitespace that follows a sentence mark. |
| `Chunking.BestBreakIsTaken` | backend/app/services/ai/chunking.py:99-120 | Of the break points in the back half of a window a paragraph break is preferred to a sentence end and that to a space, the last of its kind is taken, and without any the answer is 0. |
| `Chunking.WindowEndsAtBestBreak` | backend/app/services/ai/chunking.py:79-120 | A window reaches the end of the text, or ends at the last paragraph break in its back half, else the last sentence end, else the last space, else after exactly the chunk size. |
| `Chunking.WindowsOverlap` | backend/app/services/ai/chunking.py:92-96 | The next window starts the overlap before the end of the one before it, or one character after its start if that is further. |
| `Chunking.CutsAreClean` | backend/app/services/ai/chunking.py:99-120 | A cut is 0 or lies in the back half of the window, beside whitespace or after at least two characters. |
| `Chunking.WindowsFit` | backend/app/services/ai/chunking.py:74-96 | Every window is non-empty, inside the text and no longer than the chunk size; the loop always advances. |
| `Chunking.LastWindowReachesTheEnd` | backend/app/services/ai/chunking.py:92-93 | The loop leaves at the window that reaches the end of the text and at no other. |
| `Chunking.ChunkText` | backend/app/services/ai/chunking.py:45-96 | For all integers an error exactly if the overlap is not smaller than the size; otherwise the chunks of the normalised text, about which the next rows speak. |
| `ChunkingTheorems.ChunksAreWellCut` | backend/app/services/ai/chunking.py:84-90 | Chunks are trimmed, non-empty, contiguous pieces of the text no longer than the size, numbered 0, 1, 2 and so on. |
| `ChunkingTheorems.NothingIsSkipped` | backend/app/services/ai/chunking.py:74-96 | For every overlap below the size, each position that is not whitespace is covered by a chunk. |
| `ChunkingTheorems.NothingIsSkippedIff` | backend/app/services/ai/chunking.py:61-96 | For all integer settings the code accepts, nothing of any normalised text is skipped if and only if the overlap is not negative. |
| `ChunkingTheorems.PassagesSurvive` | backend/app/services/ai/chunking.py:48-51 | With overlap below max(2, size/2), every passage of at most overlap + 1 characters lies whole inside one chunk, where it stands. |
| `ChunkingTheorems.PassagesSurviveIff` | backend/app/services/ai/chunking.py:48-51 | That promise holds of all normalised texts if and only if the overlap is below max(2, size/2); from there on there is a text that tears a passage apart. |
| `ChunkingTheorems.ChunksAreFew` | backend/app/services/ai/chunking.py:94-96 | With overlap below half the size, n characters yield at most (n - 1)/(size/2 - overlap) + 1 chunks. |
| `KnowledgeBase.KnowledgeBaseService.Ingest` | backend/app/services/knowledge_base.py:82-168 | Empty, oversized and known texts are refused and change nothing; a failure to index leaves a failed document without chunks; success stores the normalised text and its chunks. The tables stay sound. |
| `KnowledgeBase.KnowledgeBaseService.ChunkAndEmbed` | backend/app/services/knowledge_base.py:171-195 | All rows or none: chunks are stored only if there are pieces and one embedding for each. |
| `KnowledgeBase.KnowledgeBaseService.DeleteDocument` | backend/app/services/knowledge_base.py:225-245 | The document and exactly its chunks go; an unknown document is an error that changes nothing. The tables stay sound. |
| `KnowledgeBase.RunsAreSound` | backend/app/services/knowledge_base.py:82-245 | After every run of uploads and deletions, whatever the embedder answers, chunks, documents and content hashes are as the next row says. |
| `KnowledgeBase.UploadAnswers` | backend/app/services/knowledge_base.py:105-147 | An upload is refused as empty if and only if it holds nothing visible, then as too large by its UTF-8 bytes, then as known by the hash of its cleaned text; any other is indexed unless the overlap is not below the chunk size or the embedder does not give one vector for each chunk. |
| `KnowledgeBase.UploadStores` | backend/app/services/knowledge_base.py:120-195 | Success adds the cleaned document and its chunks in order, each with the vector given for it; a failure to index adds a failed document only; any other refusal adds nothing. |
| `KnowledgeBase.BytesAddUp` | backend/app/services/knowledge_base.py:109-109 | The size of a text is the sum of the one to four bytes each character takes in UTF-8. |
| `KnowledgeBase.IndexingKeepsSound` | backend/app/services/knowledge_base.py:106-195 | Every stored chunk is a contiguous piece of what is stored for its document, every visible character of an indexed document is covered by one of its chunks, the stored count is right and content hashes are distinct, although the text is normalised twice. |
| `KnowledgeBase.FailingKeepsSound` | backend/app/services/knowledge_base.py:140-147 | A document that could not be indexed has no chunks and disturbs no other. |
| `KnowledgeBase.DeleteKeepsSound` | backend/app/services/knowledge_base.py:225-245 | Removing a document with its chunks leaves every other document covered by its own chunks and counted right. |
| `KnowledgeBase.FailedUploadBlocksARetry` | backend/app/services/knowledge_base.py:111-147 | After any run, once an upload has failed to index, the same content is refused as known even if the embedder works by then; after the failed document is deleted it fares as it would have fared without the first attempt. |
| `Retrieval.CauchySchwarz` | backend/app/services/ai/vector_store.py:52-65 | The square of an inner product is at most the product of the squared norms. |
| `Retrieval.DotAddsUp` | backend/app/services/ai/vector_store.py:62-65 | The inner product is the sum of the products of the coordinates. |
| `Retrieval.CosineSimilarity` | backend/app/services/ai/vector_store.py:52-65 | One score per row, none if the rows have no entries; every score lies in [-1, 1], is 0 against a zero vector, and times the two norms gives the inner product. |
| `Retrieval.FloorFirst` | backend/app/services/knowledge_base.py:213-220 | Sorting, cutting to k and dropping what is below the floor equals dropping first and then sorting and cutting. |
| `Retrieval.SearchIsBest` | backend/app/services/ai/vector_store.py:107-121 | The hits are the min(k, n) best candidates, best first: no candidate left out scores higher than one returned. |
| `Retrieval.RetrieveIsBest` | backend/app/services/knowledge_base.py:200-220 | Hits come best first and reach the floor; a candidate left out is below the floor or, if k hits were returned, no better than any of them. |
| `SessionTheorems.RedeemedAtMostOnce` | backend/app/services/auth.py:197-228 | Over any run of all calls, each refresh token is redeemed at most once. |
| `SessionTheorems.DeadStaysDead` | backend/app/repositories/user.py:145-158 | A token that was revoked or purged never becomes usable again, whatever call follows. |
| `SessionTheorems.HistoryKeepsDescent` | backend/app/services/auth.py:204-227 | In every reachable state each unrevoked token ends a chain of rotations that starts at a login made since all of its user's sessions were last revoked, and no two end chains of the same login. |
| `SessionTheorems.SessionsAreBounded` | backend/app/services/auth.py:398-413 | A user's unrevoked tokens never outnumber the logins since all its sessions were last revoked by logout everywhere, reset, password change, deactivation or deletion. |
| `SessionTheorems.RunsKeepSessionsActive` | backend/app/services/user.py:121-126 | In every reachable state only active users have unrevoked tokens, and a reset link that still works is the last one its user asked for. |
| `SessionTheorems.RefreshNeverMeetsAnInactiveUser` | backend/app/services/auth.py:207-213 | So in every reachable state a refresh never meets a live token of an inactive user. |
| `SessionTheorems.LoginAddsASession` | backend/app/services/auth.py:156-180 | A successful login gives its user exactly one more session, under an identifier never used before, and nobody else any; a failed one gives nobody any. |
| `SessionTheorems.RotationSwapsSessions` | backend/app/services/auth.py:204-227 | A rotation kills the token presented and makes one new session of the same user under an identifier never used before; the user has as many sessions as before and nobody else is touched. |
| `SessionTheorems.RevokingEmptiesSessions` | backend/app/repositories/user.py:150-158 | Revoking all sessions of a user leaves that user none and the others theirs. |
| `SessionTheorems.NewLinkIsTheOnlyOne` | backend/app/services/auth.py:306-316 | After a reset was asked for, the new link is the only one of that user that can work. |
| `SessionTheorems.ConsumedAtMostOnce` | backend/app/services/auth.py:331-365 | Over any run each reset link sets a password at most once. |
| `LockoutTheorem.GuessesAreBounded` | backend/app/services/auth.py:156-174 | After any past, over a span T without successful login or reset, the wrong passwords evaluated for an account number at most MAX * (T/lockout + 1). |
| `LockoutTheorem.CounterStaysBelow` | backend/app/services/auth.py:428-437 | The failure counter never reaches the threshold. |
| `Accounts.LoginAnswers` | backend/app/services/auth.py:131-192 | A login answers that the account is locked exactly while the lock runs, else that the credentials are invalid exactly if there is no such account or the password does not match, else that it is inactive, else with a new session. |
| `Accounts.WrongPasswordLocks` | backend/app/services/auth.py:428-437 | The wrong password that reaches the threshold closes the account for exactly the lockout period, even to the right password, and counting starts afresh; one before that only counts, and no other account changes. |
| `Accounts.RightPasswordOpens` | backend/app/services/auth.py:156-192 | The right password clears count and lock, upgrades the stored hash if it is due, and gives a session that can be refreshed for exactly its lifetime. |
| `Accounts.RefreshRenews` | backend/app/services/auth.py:197-228 | A refresh gives a token that again lasts its whole lifetime and belongs to the same user; the one presented is refused from then on. |
| `Accounts.StaleTokenIsRefused` | backend/app/services/auth.py:204-206 | A token that ran out, was revoked or never existed is refused and changes nothing. |
| `Accounts.ResetLinkWorks` | backend/app/services/auth.py:290-329 | A reset link works from the moment it is sent for exactly its lifetime; every earlier link of the account is dead and nobody else's changes. |
| `Accounts.NoLinkForOthers` | backend/app/services/auth.py:290-305 | No link is sent to an account that does not exist or is inactive. |
| `Accounts.ResetPasswordOpens` | backend/app/services/auth.py:331-365 | After a reset exactly the new password opens the account, at once and whatever locked it; the link is spent, the account's sessions are over and nobody else's change. |
| `Accounts.StaleLinkIsRefused` | backend/app/services/auth.py:331-345 | A link that was used, ran out or never existed changes nothing. |
| `Accounts.ChangedPasswordOpens` | backend/app/services/auth.py:367-396 | With the current password given, exactly the new one opens the account from then on, a lock aside, and its sessions are over; without it nothing changes. |
| `Accounts.NewAccountOpens` | backend/app/services/user.py:60-100 | A new account opens with the password its hash was made of if and only if it is active. |
| `Accounts.DeactivatingCloses` | backend/app/services/user.py:121-127 | A deactivated account cannot be opened, and activating it again does not bring its sessions back. |
| `Accounts.LogoutEndsSessions` | backend/app/services/auth.py:230-273 | Logging out ends the session presented, if it is the user's own, or all of the user's, and nobody else's. |
| `Accounts.PurgeDropsTheExpired` | backend/app/repositories/user.py:160-167 | Purging drops exactly the tokens that ran out before the cutoff. |
| `Accounts.DeletingTakesAll` | backend/app/services/user.py:154-180 | A deleted account takes its sessions and links along, and nothing else. |
| `AuthService.Service.Authenticate` | backend/app/services/auth.py:131-192 | Unknown, locked, wrong, inactive: the first that applies is the answer and issues nothing; success gives the user exactly one more session under a fresh identifier and clears the failures. The tables stay consistent. |
| `AuthService.Service.RegisterFailedAttempt` | backend/app/services/auth.py:428-437 | The failure that reaches the threshold locks the account and starts counting afresh. |
| `AuthService.Service.IssueTokens` | backend/app/services/auth.py:398-413 | One more session for the user, under an identifier no row has. |
| `AuthService.Service.Refresh` | backend/app/services/auth.py:197-228 | A live token dies and its owner gets one fresh live token instead, the number of sessions staying the same; for an inactive owner it only dies; any other token is refused and changes nothing. |
| `AuthService.Service.Logout` | backend/app/services/auth.py:230-273 | Logging out everywhere leaves the user no session; otherwise the token presented is afterwards none of the user's; the answer is how many sessions went from live to revoked. |
| `AuthService.Service.RequestPasswordReset` | backend/app/services/auth.py:278-329 | For an active account one fresh link is issued and no other link of that account works any more; otherwise nothing happens. |
| `AuthService.Service.ResetPassword` | backend/app/services/auth.py:331-365 | A usable link of an active user sets the password, is spent, unlocks the account and leaves it no session; any other changes nothing. |
| `AuthService.Service.ChangePassword` | backend/app/services/auth.py:367-396 | With the right current password the password changes and the user has no session left; otherwise nothing changes. |
| `AuthService.Service.SetActive` | backend/app/services/user.py:121-127 | Deactivating leaves the user no session. |
| `AuthService.Service.GetActiveByJti` | backend/app/repositories/user.py:130-143 | Finds the token exactly if it is neither revoked nor expired. |
| `AuthService.Service.Revoke` | backend/app/repositories/user.py:145-148 | An unrevoked token gets this revocation time; a revoked one keeps its own. |
| `AuthService.Service.RevokeAllForUser` | backend/app/repositories/user.py:150-158 | Every unrevoked token of the user is revoked, no other is touched, and the number is returned. |
| `AuthService.Service.PurgeExpired` | backend/app/repositories/user.py:160-167 | Exactly the tokens that expired before the cutoff are deleted and their number returned; what can be refreshed at the cutoff or later still can. |
| `AuthService.Service.InvalidateForUser` | backend/app/repositories/user.py:187-198 | Afterwards the user has no link that can work, nobody else's links are touched, and the number invalidated is returned. |
| `ApiClient.ProtocolIsSafe` | frontend/src/api/client.ts:38-82 | In every interleaving of requests, errors, refreshes and lost or late answers: one refresh under way at most, no refresh token posted twice and none refused, each request replayed at most once, nobody waiting without a refresh, and between refreshes the stored token is live. |
| `ApiClient.ErrorStartsARefreshIff` | frontend/src/api/client.ts:59-82 | In every reachable state an error makes a pending request wait for a refresh if and only if the status is 401, it was not retried before, it is not the refresh call and a refresh token is at hand; exactly that token is posted if no refresh is under way; any other error rejects the request, and nothing else changes. |
| `ApiClient.RefreshSendsWaitersAgain` | frontend/src/api/client.ts:38-74 | Once that post is served and delivered, the token posted is dead, a new one is live and stored, and everyone who waited is sent again once with it; nobody else notices. |
| `ApiClient.LostRefreshRejectsWaiters` | frontend/src/api/client.ts:76-82 | If the refresh is lost, the tokens are gone and everyone who waited is rejected. |
| `ApiClient.RequestsComeAndGo` | frontend/src/api/client.ts:20-24 | A new request carries the access token at hand and an answer settles it; neither changes anything else. |
| `ApiClient.RunsAreSound` | frontend/src/api/client.ts:38-82 | Every step keeps the protocol invariant behind that. |
| `ApiClient.ServingIsRefreshing` | backend/app/services/auth.py:204-227 | The server step of the protocol is what the auth service's refresh does to its live tokens while nothing expires. |
| `ProtocolOnService.ProtocolRunsOnTheService` | backend/app/services/auth.py:197-228 | Every run of the client protocol is a run of the auth service whose live tokens are the protocol server's at every moment. |
| `ProtocolOnService.ServiceNeverRefuses` | frontend/src/api/client.ts:38-82 | Every refresh the client makes the service handle rotates: none is refused for a used, unknown or revoked token. |
| `ApiClient.Browser.OnError` | frontend/src/api/client.ts:59-71 | A first 401 outside the refresh call, with a refresh token at hand, marks the request and makes it wait, posting the token only if no refresh is under way; any other error rejects. |
| `ApiClient.Browser.OnRefreshed` | frontend/src/api/client.ts:44-52 | The new tokens are stored, the shared promise is cleared and everyone who waits replays once with the new token. |
| `ApiClient.Browser.OnRefreshFailed` | frontend/src/api/client.ts:76-80 | Those who wait clear the tokens and reject. |
| `ApiClient.Browser.Send` | frontend/src/api/client.ts:20-24 | A new request carries the access token at hand. |
| `HexAddress.ParsesIffSpells` | backend/app/services/crash_parser.py:252-284 | A text is read as an address if and only if it spells a 32-bit address as the printer does, up to surrounding whitespace, prefix, case, underscores and leading zeros. |
| `HexAddress.PrintedAddressParses` | backend/app/services/symbolizer.py:61-63 | Reading inverts printing on every 32-bit address and on no larger one. |
| `HexAddress.SameNumberIffSameDigits` | backend/app/services/crash_parser.py:277-280 | Two digit strings denote one number exactly when they agree up to case and leading zeros. |
| `HexAddress.DigitHasItsPlace` | backend/app/services/crash_parser.py:277-280 | The sixteen digits and their values, in either case. |
| `HexAddress.UnderscoresGo` | backend/app/services/crash_parser.py:275-275 | Underscores go, wherever they stand, and nothing else. |
| `HexAddress.EightDigits` | backend/app/services/symbolizer.py:61-63 | A 32-bit address is printed as 0x and eight upper-case digits that denote it. |
| `CrashParser.ParsesAddressIff` | backend/app/services/crash_parser.py:252-284 | Exactly these are read as an address: the integer itself, a float equal to it and the texts that spell it, within 32 bits; no boolean, list, object or null is. |
| `CrashParser.CanonicalIsFixed` | backend/app/services/crash_parser.py:457-465 | A canonical register name is its own canonical name. |
| `CrashParser.KeyLeIsPreorder` | backend/app/services/crash_parser.py:467-472 | The sort key orders all register entries. |
| `CrashParser.ParseRegisters` | backend/app/services/crash_parser.py:414-455 | The loop answers and warns as the outcome functions say, about which the next rows speak. |
| `CrashParser.RegistersAreNormalised` | backend/app/services/crash_parser.py:440-455 | A dump is sorted, names each register once and canonically, holds for each register the last usable entry, and is missing exactly if no entry is usable. |
| `CrashParser.SkippedIffUnusable` | backend/app/services/crash_parser.py:443-451 | There is something to warn about exactly if some entry is unusable. |
| `CrashParser.RegistersAreFixed` | backend/app/services/crash_parser.py:414-455 | Parsing a stored register dump gives the same dump again without any warning. |
| `DumpTheorems.CanonicalNames` | backend/app/services/crash_parser.py:457-465 | What each cleaned name stands for: four status words are psr, fp, ip and sl are r11, r12 and r10, r0 to r15 and sixteen words are themselves, and nothing else is a register. |
| `DumpTheorems.CleaningParts` | backend/app/services/crash_parser.py:459-459 | A name is cleaned character by character. |
| `DumpTheorems.CleaningOne` | backend/app/services/crash_parser.py:459-459 | Cleaning lowers a letter, keeps a digit and drops anything else. |
| `DumpTheorems.ListsAreNumbered` | backend/app/services/crash_parser.py:427-431 | In a list the entry at position i is register i, and from sixteen on it is none. |
| `DumpTheorems.LongListsAreCut` | backend/app/services/crash_parser.py:427-431 | Of a list of more than 64 entries the first 64 count, with a warning that says how many there were. |
| `DumpTheorems.RegistersReadInOrder` | backend/app/services/crash_parser.py:467-472 | A dump lists the numbered registers first, ascending, then the named ones alphabetically. |
| `DumpTheorems.TextLeIs` | backend/app/services/crash_parser.py:467-472 | Alphabetical order: a prefix comes first, else the first difference decides. |
| `DumpTheorems.SkippedNames` | backend/app/services/crash_parser.py:441-451 | Exactly the entries whose name or value cannot be used are skipped, in order, each name cut to twenty characters. |
| `DumpTheorems.WarningNamesTheUnusable` | backend/app/services/crash_parser.py:453-454 | There is a warning exactly if one was skipped; it names at most eight, those that come first alphabetically. |
| `DumpTheorems.WordsAreReadBack` | backend/app/services/crash_parser.py:500-501 | Words written one behind another with any mix of whitespace, commas and semicolons between them are read as written. |
| `DumpTheorems.PrintedStackIsReadBack` | backend/app/services/crash_parser.py:474-526 | A stack of up to 4096 words written as printed addresses with any separators is read back word for word and without a warning. |
| `DumpTheorems.LongStacksAreCut` | backend/app/services/crash_parser.py:507-510 | Of more than 4096 words the first 4096 count, with a warning that says how many there were. |
| `DumpTheorems.StackByKind` | backend/app/services/crash_parser.py:474-505 | A stack given as text or list is its words, as an object the words of its field with the start address of the other; an object without a word list and any other value give a warning and no dump, and a missing one gives neither. |
| `DumpTheorems.OneMoreWord` | backend/app/services/crash_parser.py:512-521 | Each readable entry adds one word behind the others, each unreadable one adds to the count of the warning. |
| `DumpTheorems.ListsAreTheirWords` | backend/app/services/crash_parser.py:512-526 | A list without readable words is no dump, and there is a warning exactly if something was unreadable. |
| `DumpTheorems.RegistersByKind` | backend/app/services/crash_parser.py:414-436 | Registers given as an object are its entries, as a list the first 64 numbered ones; anything else gives a warning, and a missing dump none. |
| `DumpTheorems.FieldsOfADump` | backend/app/services/crash_parser.py:486-496 | Where the start address and the words of an object are looked for, and in which order. |
| `StackDump.ParseStack` | backend/app/services/crash_parser.py:474-526 | The loop answers and warns as the outcome functions say, about which the next rows speak. |
| `StackDump.WordsAreReadable` | backend/app/services/crash_parser.py:512-521 | Every token is either a word or counted as unreadable, and the words are exactly the addresses the tokens spell. |
| `StackDump.StackIsFixed` | backend/app/services/crash_parser.py:474-526 | Parsing a stored stack dump gives the same dump again without any warning. |

## Left out

- Concurrent transactions: each service call is one atomic step, with one clock reading where the code may read the
  clock more than once.
- `reparse_crash_report`: it changes fault type and program counter without regrouping, so it is no step of a run.
- Build selection in `find_for_crash`: a filing takes whatever frames some build resolved, which covers every choice.
- SymbolicationService.CrashStore.FindRecentDuplicate: which of several duplicates the query returns is left open, as
  the query has no order.
- Refiling.BatchOrderIsIrrelevant: does not speak of identifiers and clocks, nor of windows, which can depend on the
  order and have their own theorem, WindowOrder.BatchOrderLeavesTheWindowIff.
- Negative chunk settings of the knowledge base and a negative top_k in retrieval.
- SymbolicationService.CrashStore.UpdateReport: a report's status and notes are not kept; a flag says whether they were
  supplied.
- SymbolicationService.CrashStore.UpdateGroup: a group's notes are not kept; a flag says whether they were supplied.
- The order of a group's version list, which ingestion sorts downwards and a recount upwards: a set is modelled.
- Identifiers: uuid4 values and token identifiers are counters, which stands for their never repeating.
- Hashes: a signature hash and a content hash are functions given from outside; only agreement between reports and
  groups and the equivalence about relocated signatures ask the signature hash to be injective.
- bcrypt, JWT encoding and signing: a presented token is the identifier it decodes to, or none; the expiry inside a
  JWT is taken to be the row's.
- E-mail addresses: a login names the account its address finds; registering and changing addresses is not modelled
  beyond adding a row.
- Roles, verification flags, access tokens on the server, audit records, notifications and e-mail.
- ApiClient.ProtocolIsSafe: does not cover page reloads, several tabs sharing local storage, signing in or out while
  requests are under way, or tokens the server revokes or expires for another reason.
- The regular expression that finds symbols in a linker map, and reading ELF files: their rows are given.
- DWARF line tables, addr2line, source files and lines of frames.
- `_backfill_from_registers`, timestamps, fault types, severities and text fields of the parser: single-branch rules.
- Non-ASCII letters in register names: lower-casing is ASCII, so the few letters that Unicode lower-cases into ASCII
  are dropped instead.
- Floats that are not numbers, and JSON documents with a repeated key.
- The Chroma store, embedding and language-model providers, prompts.
- Floating-point rounding of scores, and the square root: norms are given and asked to be norms.
- Pagination, search, charts, export, device management and the pages of the web application.
