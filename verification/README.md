# Verified models of the release and CI scripts

A Dafny 4.11 project that models the hard parts of seven scripts of the repository and proves
properties of them: the translation sync engine, the supervision of child processes, the gateway
restart monitor, and five algorithmic kernels. `dafny verify dfyconfig.toml` checks everything.

How the models are built:

- Code made of expressions stays functions and lemmas. Code that changes state step by step is
  imperative: loops with invariants, and classes for the records, buffers, registries and closures
  that callbacks share. Every such method is proved against a specification function, and what the
  script promises is proved about that function.
- Event-driven protocols (`RunProcess`, `CrossOsCommands`) are step functions on the variables of a
  call or child plus a system that holds any number of them. A *run* is any sequence of enabled events,
  so a lemma about runs covers every interleaving. `ProcessRuns` and `CrossOsSupervisor` hold the same
  protocols as classes. Each event loop keeps the run so far as a ghost history, and its validity says
  that this is a run of the protocol and that the objects are its last state; so what is proved of all
  runs is stated of the objects whenever they re-raise a signal, exit or settle.
- `SyncSpec` says what one locale sync must produce from the files it finds and the answers it gets;
  `LocaleSync` performs the sync with the loops of the script and is proved to produce exactly that.
- What a step function or a specification computes is tied to definitions that do not mention it:
  `ProcessEvents` and `CrossOsEvents` read the flags, signals sent, timers and settlements of a call or
  child off the events of a run alone, `SyncPrecedence` reads texts, prompts, memory lines and meta data
  of a sync off the files it found, `ArgumentBrackets` reads quotes and depths off the characters, and
  `RestartFacts` reads rates and codes off the recorded restarts.
- Records of what happened (settlements, chunks received, signals sent, first signal) stand beside the
  program's own variables where a property needs them; no branch reads them.

| file | content |
|---|---|
| `Wrappers.dfy`, `Text.dfy`, `OrderedMap.dfy` | option and result types; `trim`, `split`, `join`, sorted unique lists; JavaScript `Map` |
| `TranslationTree.dfy`, `TranslationMemory.dfy`, `Placeholders.dfy` | nested and flat translation maps, the memory file and its index, placeholder parity |
| `TranslationBatches.dfy`, `Bisection.dfy`, `BatchTranslation.dfy` | greedy batching; the protocol of retry and bisection; prompting by it |
| `SyncSpec.dfy`, `LocaleSync.dfy`, `SyncPrecedence.dfy` | specification and execution of one locale sync, and of the sync after it; what a run leaves behind, told from the files it found |
| `ProcessOutput.dfy`, `RunProcess.dfy`, `ProcessEvents.dfy`, `ProcessRuns.dfy` | `runProcess`: output tail, protocol, what the events alone say of a call, objects |
| `CrossOsCommands.dfy`, `CrossOsEvents.dfy`, `CrossOsSupervisor.dfy` | cross-OS commands and the signal forwarder: protocol, what the events alone say of a child, objects |
| `OutputLines.dfy`, `RestartProbe.dfy`, `RestartBenchmark.dfy`, `RestartFacts.dfy` | gateway restart monitor: lines, downtime, samples, verdict; what its records and rates mean |
| `PathMatcher.dfy`, `ArgumentScanner.dfy`, `ArgumentBrackets.dfy`, `ReaderPool.dfy`, `ImportClosure.dfy`, `LabelBatches.dfy` | the kernels |

Results that differ from what one might expect of the code:

- The second sync is clean for all inputs exactly when every source key survives being nested and
  flattened (`SyncSpec.SecondRunIsCleanIffKeysNest`). It does when no key runs through another and none
  starts with a dot, which every source locale with non-empty, dot-free names satisfies
  (`SyncSpec.PlainSourcesNestCleanly`). The same condition is exact for `setNestedValue` and
  `flattenTranslations` undoing each other (`TranslationTree.NestThenFlatten`): a key with a leading dot
  is lost, although no key is a prefix of another.
- The old-text branch of the fallback loop is never taken in a run that is done: a key that reaches the
  loop unanswered ends as its source text and as a fallback (`SyncPrecedence.RunFollows`), because an old
  text that may be kept has already been kept by the first loop, and with a provider every queued key is
  answered.
- `appendBoundedProcessOutput` keeps the tail exactly for positive limits: `slice(-0)` keeps everything
  (`ProcessOutput.TailIsKeptIffLimitIsPositive`). `runProcess` never passes a limit below one.
- The cross-OS forwarder's kill guarantee stops at the first signal: a command started during the grace
  period can be alive when the process exits (`CrossOsCommands.LateCommandCanSurvive`). An exit leaves a
  registered child without SIGKILL exactly when the force-kill timer makes it while such a late child is
  registered that has not timed out (`CrossOsCommands.ExitLeavesAliveIffLate`). A gateway leaves
  the registry without being killed first, when it closes or on an error event, after which it may still
  run; so the guarantee for gateways is that they were killed or had left.
- The labelling state is written in place, so a crash inside a save loses it: the file covers every
  completed batch exactly when the crash is not inside a save or those batches are empty
  (`LabelBatches.FileCoversIffNotSaving`), and the next run starts from nothing. Issues and pull requests
  share the file, so a crash inside a save of the second phase loses the first too
  (`LabelBatches.MainFileCoversIffNotSaving`).

## Model

| member | source | states |
|---|---|---|
| TranslationTree.FlattenTranslations | scripts/control-ui-i18n.ts:393-403 | the property loop with its recursive calls computes the flattening specification, for any prefix and any earlier output |
| TranslationTree.FlattenReaches | scripts/control-ui-i18n.ts:393-403 | a flattened key is defined exactly when it was before or some path of property names spells it, and then holds a text found there |
| TranslationTree.FlattenListsLeaves | scripts/control-ui-i18n.ts:393-403 | if no two texts have the same dotted name, the flat map lists the texts in the order they stand in the tree |
| TranslationTree.FlattenKeepsLastLeaf | scripts/control-ui-i18n.ts:393-403 | of several texts with one dotted name the last one in the tree is kept |
| TranslationTree.SetNestedLookup | scripts/control-ui-i18n.ts:405-420 | setting a dotted key defines its path, removes every text above or below it, and changes nothing else |
| TranslationTree.SetNestedNames | scripts/control-ui-i18n.ts:405-420 | each object on the path of the key has the next part as a property where it was, or as its last one |
| TranslationTree.SetNestedKeepsOthers | scripts/control-ui-i18n.ts:405-420 | every object off the path is untouched |
| TranslationTree.NestThenFlatten | scripts/control-ui-i18n.ts:393-420 | inserting a flat map in any order and flattening gives the map back if and only if no key runs through another and none starts with a dot |
| TranslationTree.LostKey | scripts/control-ui-i18n.ts:405-420 | when that condition fails, some key of the flat map is missing afterwards |
| TranslationTree.LossyExamples | scripts/control-ui-i18n.ts:405-420 | two concrete maps, one per way of losing a key |
| TranslationTree.FlattenedMapsAreClean | scripts/control-ui-i18n.ts:393-403 | flattening a nested map with non-empty, dot-free names is distinct, prefix-free and without leading dots |
| TranslationTree.FlattenNestFlatten | scripts/control-ui-i18n.ts:393-420 | flattening such a map, rebuilding it and flattening again gives the same flat map |
| Placeholders.MatchAllFindsFrom | scripts/control-ui-i18n.ts:436-440 | the left-to-right regular-expression matches are exactly the `{name}` placeholders that occur |
| Placeholders.EqualListsIffSamePlaceholders | scripts/control-ui-i18n.ts:422-440 | the sorted lists are equal if and only if both texts use the same set of placeholders |
| Placeholders.FindPlaceholderMismatches | scripts/control-ui-i18n.ts:442-461 | the loop computes the list of entries whose placeholder lists differ, in order |
| Placeholders.MismatchesAreExact | scripts/control-ui-i18n.ts:442-461 | an entry is reported, with its two lists, if and only if its translation uses other placeholders than its source |
| Placeholders.NoMismatchIffParity | scripts/control-ui-i18n.ts:463-471 | nothing is reported exactly when every entry is in parity |
| TranslationMemory.LoadTranslationMemory | scripts/control-ui-i18n.ts:551-570 | the loading loop: blank or keyless entries are dropped, a later line replaces an earlier one |
| TranslationMemory.LookupIsLastLine | scripts/control-ui-i18n.ts:551-570 | a lookup in the loaded memory finds the last line with its key that is neither blank nor keyless, and nothing exactly when there is none |
| TranslationMemory.LoadOfRender | scripts/control-ui-i18n.ts:551-580 | writing a memory and loading it back answers every lookup as before |
| TranslationMemory.RenderIgnoresOrder | scripts/control-ui-i18n.ts:572-580 | the rendered file depends on the lookups only, not on the order of insertion |
| TranslationMemory.BuildTranslationMemoryByTextHash | scripts/control-ui-i18n.ts:582-594 | the loop builds the index in which the last eligible entry of a text hash wins |
| TranslationMemory.IndexHoldsEligible | scripts/control-ui-i18n.ts:582-594 | an indexed hash maps to the last eligible entry with that hash |
| TranslationMemory.EligibleIsIndexed | scripts/control-ui-i18n.ts:582-594 | every eligible entry's hash is indexed |
| TranslationMemory.LoadKeepsLineOrder | scripts/control-ui-i18n.ts:551-570 | the loaded entries stand in the order in which their keys first came up in the file |
| TranslationMemory.IndexIsLastHashLine | scripts/control-ui-i18n.ts:551-594 | a text hash finds, among the eligible lines that count for their keys, that of the key that came up last in the file, and nothing exactly when there is none |
| TranslationBatches.CounterOvercountsByTwoPerItem | scripts/control-ui-i18n.ts:980-982 | the loop's running counter exceeds the size estimate of the batch by exactly 2 per item |
| TranslationBatches.BuildTranslationBatches | scripts/control-ui-i18n.ts:1313-1337 | the batches concatenate to the items in order, each is non-empty, has at most 20 items and is a singleton or within budget, and no contiguous partition with those limits is shorter |
| TranslationBatches.GreedyIsOptimal | scripts/control-ui-i18n.ts:1313-1337 | greedy batching uses at most as many batches as any partition that obeys the loop's limits |
| TranslationBatches.FittingBatchIsInBudget | scripts/control-ui-i18n.ts:980-982 | a batch of two or more items that fits has its own size estimate within the budget |
| TranslationBatches.FitsInCharacters | scripts/control-ui-i18n.ts:1313-1337 | a batch is accepted exactly when it is a single item, or has at most 20 and the characters of keys and texts plus 10 per item plus 2 are within the budget |
| BatchTranslation.ReadAnswer | scripts/control-ui-i18n.ts:1454-1461 | succeeds exactly when every item has a non-blank answer, and then with those answers; otherwise with the error for the first item that has none |
| BatchTranslation.MissingIsFirst | scripts/control-ui-i18n.ts:1454-1461 | the key an answer is reported to miss is the first one without a non-blank value |
| BatchTranslation.IncludesIffOccurs | scripts/control-ui-i18n.ts:939-950 | a message counts as a timeout or as an authentication error exactly when a phrase stands in it at some position |
| BatchTranslation.TranslateBatch | scripts/control-ui-i18n.ts:1436-1498 | whatever the replies, the retry loop with its recursion sends the prompts and has the result of the bisection protocol, on which the next rows build |
| BatchTranslation.TranslateHalves | scripts/control-ui-i18n.ts:1470-1486 | the split after a timeout does the same: the left half first, the right half after it and only if it succeeds, errors passed on |
| BatchTranslation.TranslationIsRight | scripts/control-ui-i18n.ts:1436-1498 | for all replies: at most 4n-2 prompts; each for a non-empty stretch of the items, at split depth d at most ceil(n/2^d) of them; a result has exactly the items' keys with non-blank values the provider gave; retries, splits and giving up as in the rows below |
| Bisection.PromptsAreFew | scripts/control-ui-i18n.ts:1436-1498 | under any pattern of success, timeout and other failure: at least one and at most 4n-2 prompts |
| Bisection.PromptsShrink | scripts/control-ui-i18n.ts:1470-1486 | a prompt d levels below the start holds at most n items halved upwards d times |
| Bisection.HalvedUpIsCeiling | scripts/control-ui-i18n.ts:1471 | halving n upwards d times is the ceiling of n over 2 to the d |
| Bisection.RunObeys | scripts/control-ui-i18n.ts:1447-1498 | a timeout of several items is followed by a prompt for their first half; any other failure is tried once more; the result and its error are those of the last prompt |
| Bisection.WhenItGivesUp | scripts/control-ui-i18n.ts:1463-1497 | a batch is given up exactly after a single item timed out or one prompt failed otherwise twice in a row, never after a timeout of several items |
| Bisection.HalvesShareItems | scripts/control-ui-i18n.ts:1470-1486 | the two halves of a split are the batch, and the first has the odd item |
| Bisection.TranslatesLeftToRight | scripts/control-ui-i18n.ts:1447-1498 | the items of the successful prompts, in order, are a prefix of the batch, and the whole of it exactly when the call succeeds |
| Bisection.ValuesAreGiven | scripts/control-ui-i18n.ts:1454-1486 | the result has exactly the values the successful prompts gave, the last one counting |
| BatchTranslation.ResultsCover | scripts/control-ui-i18n.ts:1454-1486 | a result has exactly the items' keys, each with a non-blank value some reply gave |
| BatchTranslation.RepliesReachBound | scripts/control-ui-i18n.ts:1436-1498 | for any items there are replies under which exactly 4n-2 prompts are sent |
| Bisection.SucceedsIffEachDoes | scripts/control-ui-i18n.ts:1669-1696 | the batches of a run succeed together exactly when each, prompted after the ones before it, succeeds |
| Bisection.SendAllObeys | scripts/control-ui-i18n.ts:1669-1696 | the prompts of all batches follow one another as those of one batch do; the batches fail together exactly when the last prompt of all failed, with its error |
| Bisection.SendAllIsFew | scripts/control-ui-i18n.ts:1669-1696 | all batches together take at most 4n-2 prompts for each batch of n items |
| Bisection.SendAllLeftToRight | scripts/control-ui-i18n.ts:1669-1696 | the successful prompts of all batches translate a prefix of all items in order, and all of them exactly when no batch is given up |
| Bisection.SendAllGiven | scripts/control-ui-i18n.ts:1669-1696 | the answers of a run are exactly the values its successful prompts gave |
| BatchTranslation.SendAllCovers | scripts/control-ui-i18n.ts:1669-1696 | when all batches succeed the answers have exactly the keys of all items, each with a non-blank value some reply gave |
| SyncSpec.MemoryLookup | scripts/control-ui-i18n.ts:1623-1632 | after a sync the memory holds for each source key what was written for it, and is unchanged everywhere else |
| SyncSpec.SecondDecision | scripts/control-ui-i18n.ts:1598-1644 | a key the first run settled settles to the same text and fallback state again, without the text-hash index, without a prompt and without a new memory entry |
| SyncSpec.IndexDoesNotGrow | scripts/control-ui-i18n.ts:582-594 | without a provider a sync adds no text hash to the index of the next run |
| SyncSpec.ProviderLeavesNoFallback | scripts/control-ui-i18n.ts:1646-1696 | with a provider whose batches all succeed, no fallback key is left and all source keys count as translated |
| SyncSpec.SecondRunIsClean | scripts/control-ui-i18n.ts:1598-1798 | after any sync, with or without a provider and `--force`, the next run reproduces all four files (`generatedAt` included), sends no key and never uses the text-hash index |
| SyncSpec.LostKeyMakesSecondRunDirty | scripts/control-ui-i18n.ts:1743-1798 | if some source key does not survive nesting, there are files for which the second run is not clean |
| SyncSpec.SecondRunIsCleanIffKeysNest | scripts/control-ui-i18n.ts:1598-1798 | the second run is clean for all files and answers if and only if the source keys nest cleanly |
| SyncSpec.PlainSourcesNestCleanly | scripts/control-ui-i18n.ts:393-403 | every source locale with non-empty, dot-free names meets that condition |
| LocaleSync.MemoryIsStillCurrent | scripts/control-ui-i18n.ts:1598-1632 | though the memory is updated while it is consulted, each key still sees the entry it had at the start |
| LocaleSync.Classify | scripts/control-ui-i18n.ts:1594-1644 | the main loop settles exactly the keys that need no provider, queues exactly the others in order, and updates the memory as specified; which of memory, text hash and old locale file decides is `SyncPrecedence.DecisionIsDecided` |
| LocaleSync.RecordBatch | scripts/control-ui-i18n.ts:1676-1695 | after one translated batch the flat map, the answers and the memory hold exactly the new values, and the earlier answers stay |
| LocaleSync.SendBatches | scripts/control-ui-i18n.ts:1669-1696 | result, error, answers and number of prompts are those of the batches sent in turn up to the first that is given up; if none is, every queued item is answered and recorded once and nothing else changed |
| LocaleSync.FillFallbacks | scripts/control-ui-i18n.ts:1720-1734 | the last loop fills exactly the missing pending keys and records exactly those that are fallbacks |
| LocaleSync.LoopedIsSpecified | scripts/control-ui-i18n.ts:1594-1734 | the three loops together settle every key, collect the fallback keys and write the memory as the specification says |
| LocaleSync.SettleAll | scripts/control-ui-i18n.ts:1594-1734 | the loops run in order settle all keys as specified with the answers the batches got in turn; they fail exactly when a batch is given up, with its error |
| LocaleSync.BuildMeta | scripts/control-ui-i18n.ts:1748-1777 | comparing the fields one by one keeps the old timestamp exactly when nothing else changed |
| LocaleSync.RebuildMap | scripts/control-ui-i18n.ts:1743-1746 | the loop builds the nested map of all source keys with their settled texts |
| LocaleSync.HasPlaceholderParity | scripts/control-ui-i18n.ts:1741 | the check passes exactly when every settled text uses the placeholders of its source |
| LocaleSync.Deliver | scripts/control-ui-i18n.ts:1794-1839 | reports a change exactly when a file differs; writes the expected files only when asked to and changed |
| LocaleSync.SyncLocale | scripts/control-ui-i18n.ts:1572-1840 | exactly one of three ways: a batch is given up, and the run reports its error or skips; all batches succeed but placeholder parity fails, and it throws; or it is done, with the expected files for the answers of its batches. Only the last may touch the files |
| LocaleSync.DoneIffBatchesSucceed | scripts/control-ui-i18n.ts:1646-1746 | a run is done if and only if every batch, prompted in its turn, is translated with the placeholders of its sources, and what is kept without the provider is in parity |
| LocaleSync.AnswersAreAsked | scripts/control-ui-i18n.ts:1646-1696 | if no batch is given up the answers are for exactly the queued keys, and each was given by a reply |
| LocaleSync.DoneUnlessLastPromptFails | scripts/control-ui-i18n.ts:1646-1741 | with replies that keep placeholders, whatever keys each answers and however prompts were retried or split, a run is done exactly when it sent no prompt or its last prompt did not fail |
| LocaleSync.ExpectedCoversSource | scripts/control-ui-i18n.ts:1743-1746 | the locale file of a run reads back every source key with its settled text |
| LocaleSync.SyncWithProvider | scripts/control-ui-i18n.ts:1564-1746 | a sync whose batches all succeed with placeholders kept is done, ends with no fallback keys and, once written, counts and covers every source key |
| LocaleSync.SyncTwice | scripts/control-ui-i18n.ts:1572-1840 | the first of two syncs is done exactly when its batches succeed with placeholders kept and what it keeps is in parity; after a first run that is done the second is done, reports no change, writes nothing and sends no prompt; with a provider no fallback is left |
| SyncPrecedence.DecisionIsDecided | scripts/control-ui-i18n.ts:1598-1644 | a key is decided by the memory line under its own cache key if it may be kept; otherwise by the last line with its text hash if it was a fallback or absent; otherwise by the old locale text if it may be kept; otherwise it is queued |
| SyncPrecedence.OnlyOneDecides | scripts/control-ui-i18n.ts:1598-1644 | no two of these four apply to a key |
| SyncPrecedence.RunFollows | scripts/control-ui-i18n.ts:1594-1798 | every run that is done and did not leave a change unwritten: each source key ends with the text of what decides it, an open key with its answer or, without a provider, its source text; it is listed as a fallback exactly when it was one and its text was kept, or it ended as source text; the locale file reads the texts back if the keys nest cleanly; every memory line is a copied line, an answer with all its fields, or as before; meta data and glossary follow field by field |
| SyncPrecedence.PromptsFollow | scripts/control-ui-i18n.ts:1637-1696 | a run prompts for open keys only, in the order of the source, for all of them if no batch is given up; without a provider it sends nothing; its answers are what its successful prompts gave |
| SyncPrecedence.NextMetaFollows | scripts/control-ui-i18n.ts:1748-1777 | the meta file counts the keys, names provider and model of the run or keeps the old ones, and has a new timestamp exactly when it says something new |
| SyncPrecedence.RunSkipsOnAuthErrorOnly | scripts/control-ui-i18n.ts:1697-1712 | a run skips exactly when its last prompt failed, the message names an authentication error and skipping is allowed; it then reports the fallback keys on file; no run that is not done touches the files |
| ProcessOutput.CaptureIsTail | scripts/control-ui-i18n.ts:1006-1017 | for every chunking the text is the last `maxChars` characters, and its length plus the dropped count is the total |
| ProcessOutput.UntruncatedIsExact | scripts/control-ui-i18n.ts:1006-1017 | nothing was dropped exactly when the text is the whole output |
| ProcessOutput.TailIsKeptIffLimitIsPositive | scripts/control-ui-i18n.ts:1006-1017 | the tail property holds for all chunkings if and only if the limit is positive |
| RunProcess.CallbackKeepsInv | scripts/control-ui-i18n.ts:1103-1245 | every callback of a call keeps the invariant over its flags, timers, captures and settlement |
| RunProcess.CallbackLasts | scripts/control-ui-i18n.ts:1147-1161 | no callback changes a settlement once made or clears a pending parent signal |
| RunProcess.StepKeepsSystemInv | scripts/control-ui-i18n.ts:1059-1061 | every event keeps all calls in their invariant and the registry equal to the calls that are unsettled or have a signal pending |
| RunProcess.CallsSettleOnceAndRightly | scripts/control-ui-i18n.ts:1147-1190 | in every run a call settles at most once; never resolves after its timeout; a timed-out settlement follows a dead group or SIGKILL; a resolution comes after the close, with its code and the tails of everything received on both streams, and with code 0 all of stdout; what was received is what the events of the run delivered |
| RunProcess.RecordsAreEvents | scripts/control-ui-i18n.ts:1205-1245 | the pieces of both streams and the close on a call's record are, in order, those of the run's events |
| RunProcess.SettlementsLast | scripts/control-ui-i18n.ts:1147-1161 | in every run a settlement, once made, stays the same |
| RunProcess.ReraiseIsSafe | scripts/control-ui-i18n.ts:1026-1033 | for any number of calls: when the parent signal is re-raised, every call ever started has settled with no signal pending, or has recorded the signal and its group was seen dead or sent SIGKILL; the signal is the recorded one |
| RunProcess.ClosedCallSettles | scripts/control-ui-i18n.ts:1191-1245 | a call whose child closed has settled, or has its grace timer armed, which will reject it as timed out |
| RunProcess.RecordedSignalIsHandled | scripts/control-ui-i18n.ts:1103-1130 | a relayed signal is never forgotten: until the call is done its kill timer is armed and will attempt the re-raise with that signal |
| ProcessEvents.FlagsAreEvents | scripts/control-ui-i18n.ts:1103-1245 | at every point of every run a call has the options it was started with, and its timeout, its relayed signal, its error, the signals it was sent and whether it is done are those the events before say |
| ProcessEvents.UnsettledIsArmed | scripts/control-ui-i18n.ts:1131-1135 | a call that has not settled can still time out unless it did, and hears SIGINT, SIGTERM and SIGHUP unless it was relayed one |
| ProcessEvents.SettledIsDisarmed | scripts/control-ui-i18n.ts:1147-1161 | a settled call hears no timeout and no parent signal any more |
| ProcessEvents.GraceTimerIffInGrace | scripts/control-ui-i18n.ts:1191-1209 | without a relayed signal an unsettled call has its kill timer armed exactly between its timeout and the timer's firing |
| ProcessEvents.SettlementIsVerdict | scripts/control-ui-i18n.ts:1147-1245 | a call is settled exactly by the first event that decides it, with the verdict on what the events delivered: an error; a close outside the grace or with a dead group; the kill timer after a close put aside; as timed out, failed exit, overflow with code 0, or resolved with the output tails |
| ProcessEvents.HungCallIsKilled | scripts/control-ui-i18n.ts:1191-1209 | for a child that hangs, the timeout can fire and sends SIGTERM, then the kill timer can and sends SIGKILL, and the close after it settles the call as timed out |
| ProcessEvents.CanBeSettled | scripts/control-ui-i18n.ts:1147-1245 | every reachable call that has neither settled nor been relayed a signal can be continued to a settlement |
| ProcessEvents.ReraisesWhenAllDone | scripts/control-ui-i18n.ts:1026-1033 | the parent signal is re-raised exactly at an event that ends the relay of a signal while no call ever started holds it up, and with that signal |
| ProcessRuns.Registry.MaybeReraise | scripts/control-ui-i18n.ts:1026-1033 | the loop over the set re-raises exactly when every state in it has a signal and is done |
| ProcessRuns.ProcessRun.Deliver | scripts/control-ui-i18n.ts:1103-1245 | every callback on the object refines its step function, including the shared set and the re-raise |
| ProcessRuns.EventLoop.Start | scripts/control-ui-i18n.ts:1035-1061 | starting a call extends the run of which the objects are the last state; that its timeout and signal handlers are armed from then on is `ProcessEvents.UnsettledIsArmed` |
| ProcessRuns.EventLoop.Dispatch | scripts/control-ui-i18n.ts:1026-1245 | any enabled callback extends that run; the process signals itself exactly when the step says so, with the signal the call recorded, and then every call object ever started has settled with no signal pending or has recorded it and its group was seen dead or sent SIGKILL |
| ProcessRuns.EventLoop.CallsSettleOnceAndRightly | scripts/control-ui-i18n.ts:1147-1190 | whatever was dispatched, each call object has settled at most once, as the protocol promises, with what the dispatched events delivered |
| ProcessRuns.EventLoop.SettlementsLast | scripts/control-ui-i18n.ts:1147-1161 | a settlement on record at any earlier point of the run is still on the object |
| ProcessRuns.EventLoop.CallIsFromEvents | scripts/control-ui-i18n.ts:1103-1245 | whatever was dispatched, settlement, signals sent, flags and the armed timeout of each call object are those the dispatched events say |
| CrossOsCommands.ChildStepKeepsInv | scripts/marketingclaw-cross-os-release-checks.ts:4114-4247 | every callback of a child keeps its invariant, never undoes a record, and leaves it accounted for after a forwarded signal |
| CrossOsCommands.StepKeepsInv | scripts/marketingclaw-cross-os-release-checks.ts:69-97 | every event keeps the invariant of the forwarder, its timer and all children |
| CrossOsCommands.CommandsSettleOnceAndRightly | scripts/marketingclaw-cross-os-release-checks.ts:4114-4247 | in every run a command settles at most once (exactly when and how is `CrossOsEvents.SettlementIsVerdict`); it resolves only without a timeout, with the exit code its child closed with before any forwarded signal and a cleanly ended log, and with `check` only on code 0; exit, timeout, error and log end are those the events of the run delivered |
| CrossOsCommands.RecordsAreEvents | scripts/marketingclaw-cross-os-release-checks.ts:4166-4247 | a child's exit code and whether it closed after the first signal, its timeout, its error and the first end of its log are, at every point, those of the run's events |
| CrossOsCommands.SettlementsLast | scripts/marketingclaw-cross-os-release-checks.ts:4128-4141 | in every run a settlement, once made, stays the same |
| CrossOsCommands.FirstIsRecorded | scripts/marketingclaw-cross-os-release-checks.ts:69-86 | what is recorded of the first signal is the first signal event of the run and the registry at that moment |
| CrossOsCommands.ForwardedExitIsSafe | scripts/marketingclaw-cross-os-release-checks.ts:69-97 | every exit uses the code of the first signal and happens with an empty registry or after SIGKILL to every tree registered when it arrived; each of those was sent SIGKILL or is a gateway that left the registry |
| CrossOsCommands.EmptyRegistryExitLeavesNothing | scripts/marketingclaw-cross-os-release-checks.ts:88-97 | at an exit with an empty registry every child was sent SIGKILL, is a gateway that left the registry, or had left before the first signal |
| CrossOsCommands.ExitKillsExactly | scripts/marketingclaw-cross-os-release-checks.ts:69-97 | at every exit a child still registered was sent SIGKILL if and only if it was registered at the first signal or had timed out |
| CrossOsCommands.ExitLeavesAliveIffLate | scripts/marketingclaw-cross-os-release-checks.ts:69-97 | an exit leaves a registered child without SIGKILL if and only if the force-kill timer made it while some registered child had neither been registered at the first signal nor timed out |
| CrossOsCommands.SignalLeadsToExit | scripts/marketingclaw-cross-os-release-checks.ts:79-84 | once a signal was forwarded the force-kill timer is armed until the process exits, and its firing exits with the first signal's code |
| CrossOsCommands.TimedOutCommandFinishes | scripts/marketingclaw-cross-os-release-checks.ts:4166-4182 | a timed-out command that has not finished has its kill wait armed, which finishes it |
| CrossOsCommands.LateCommandCanSurvive | scripts/marketingclaw-cross-os-release-checks.ts:75-84 | a concrete run in which a command started after the first signal is never signalled before the exit |
| CrossOsEvents.FlagsAreEvents | scripts/marketingclaw-cross-os-release-checks.ts:4114-4247 | at every point of every run the kind, registration, timeout, timers and pending callback of a child are those its events say |
| CrossOsEvents.UnfinishedIsArmed | scripts/marketingclaw-cross-os-release-checks.ts:4166-4182 | a command with a time limit can time out exactly until it finished or did, then its kill wait can end it, and once it finished its log can end |
| CrossOsEvents.SettlementIsVerdict | scripts/marketingclaw-cross-os-release-checks.ts:4114-4247 | a command is unsettled until its log has ended and is settled once then: as log failure, spawn error, unkillable, timed out, failed or resolved with its code, as the events that finished it, came before and ended the log say; not at all only if it closed after a forwarded signal |
| CrossOsEvents.SentIsFromEvents | scripts/marketingclaw-cross-os-release-checks.ts:69-97 | a child is sent exactly what the events say: each signal while it is registered, SIGKILL by the force-kill timer if it was registered at the first one, at its timeout, and for a command at a close or error after a signal |
| CrossOsEvents.ExitsExactly | scripts/marketingclaw-cross-os-release-checks.ts:69-97 | the process exits exactly at a signal with nobody registered, at the force-kill timer, or at the clean end of the log of a command that closed after a signal with nobody registered |
| CrossOsEvents.ExitCodeNamesFirstSignal | scripts/marketingclaw-cross-os-release-checks.ts:47-86 | the exit code is 128 plus the number of the first signal |
| CrossOsSupervisor.SignalForwarder.OnSignal | scripts/marketingclaw-cross-os-release-checks.ts:69-86 | the first signal fixes the code and the timer's targets; an empty registry exits at once; every active tree is sent the signal |
| CrossOsSupervisor.SignalForwarder.OnForceKill | scripts/marketingclaw-cross-os-release-checks.ts:79-84 | exactly the trees active when the timer was armed are sent SIGKILL, then the process exits |
| CrossOsSupervisor.ChildProcess.Deliver | scripts/marketingclaw-cross-os-release-checks.ts:4166-4247 | every callback of a child refines its step function, including the registry, the timer and the exit |
| CrossOsSupervisor.EventLoop.Dispatch | scripts/marketingclaw-cross-os-release-checks.ts:52-97 | any enabled event extends the run of which the objects are the last state; when the process exits, the objects are as the next row says |
| CrossOsSupervisor.EventLoop.ExitIsSafe | scripts/marketingclaw-cross-os-release-checks.ts:69-97 | when the process has exited: with the first signal's code; every child object registered then was sent SIGKILL or is a gateway that left the registry; of those still registered exactly these and the timed-out ones were sent SIGKILL |
| CrossOsSupervisor.EventLoop.CommandsSettleOnceAndRightly | scripts/marketingclaw-cross-os-release-checks.ts:4114-4247 | whatever was dispatched, each child object has settled at most once and as the protocol promises, with what the dispatched events delivered |
| CrossOsSupervisor.EventLoop.SettlementsLast | scripts/marketingclaw-cross-os-release-checks.ts:4128-4141 | a settlement made at any earlier point of the run is still the object's |
| CrossOsSupervisor.EventLoop.ChildIsFromEvents | scripts/marketingclaw-cross-os-release-checks.ts:4114-4247 | whatever was dispatched, settlement, signals sent and flags of each child object are those the dispatched events say |
| OutputLines.LinesAreStrippedSplit | scripts/bench-gateway-restart.ts:965-971 | splitting at `\r?\n` is cutting at line feeds and stripping one carriage return before each |
| OutputLines.SplitResumes | scripts/bench-gateway-restart.ts:965-971 | splitting may stop anywhere, even inside a CR LF, and resume from the carried piece |
| OutputLines.OutputBuffers.OnChunk | scripts/bench-gateway-restart.ts:1248-1264 | delivered lines plus carry of each stream stay the split of everything received on it |
| OutputLines.OutputBuffers.Flush | scripts/bench-gateway-restart.ts:973-990 | a no-op before the end; at the end each stream has delivered exactly the lines of its whole text, that is its split without a last piece that is empty |
| OutputLines.DrainStreams | scripts/bench-gateway-restart.ts:965-990 | for every chunking and interleaving of two streams, the lines delivered on each are exactly those of its whole text |
| RestartProbe.WaitForRestartProbe | scripts/bench-gateway-restart.ts:675-760 | the polling loop reports on exactly the attempts it made and stops exactly at the deadline, a dead process, readiness without an outage, or the recovery |
| RestartProbe.StopsWhenMade | scripts/bench-gateway-restart.ts:675-760 | the number of attempts is fixed by what the loop sees: it stops at the first recovery or the first reason to stop, and nowhere else |
| RestartProbe.OutageIsFound | scripts/bench-gateway-restart.ts:731-748 | downtime start and recovery are the first attempt without a 200 and the first later 200, exactly when there are such |
| RestartProbe.RecoveredMeansUp | scripts/bench-gateway-restart.ts:690-760 | on every exit path a recovery time comes with status 200, and it is missing only without attempts or in an unfinished outage |
| RestartProbe.TimesAreNotNegative | scripts/bench-gateway-restart.ts:737-748 | with a clock that never goes back, downtime and recovery time are not negative, and downtime is at most the recovery time |
| RestartProbe.RunsCompressStates | scripts/bench-gateway-restart.ts:712-727 | the runs are the run-length compression of the observed states: expanding them gives the states back, neighbours differ, and run i opens at the attempt after the first i counts |
| RestartProbe.OneTransitionPerRun | scripts/bench-gateway-restart.ts:712-727 | there is one transition per run of equal states, with the time, the status and the shown error kind of the attempt that opened the run |
| RestartProbe.FirstErrorIsFirst | scripts/bench-gateway-restart.ts:728-730 | the error kind reported is that of the first attempt with one that is not empty |
| RestartProbe.RunsOpenOnChange | scripts/bench-gateway-restart.ts:710-711 | a transition opens where the status changes, or the error kind with a missing one read as `ok` |
| RestartBenchmark.RunRestarts | scripts/bench-gateway-restart.ts:1305-1393 | without a failure code every requested restart ran and passed; with one, all but the last passed and the code is the last one's or says that the child was dead before the next signal; the code of each restart is the reason it failed, and its probes report exactly what they saw |
| RestartBenchmark.RunOneRestart | scripts/bench-gateway-restart.ts:1310-1388 | one restart: both probe results report exactly the attempts their loops make, its code is the reason it failed, and without a code it passed |
| RestartBenchmark.ReasonDecidesCode | scripts/bench-gateway-restart.ts:1023-1046 | each failure code is given exactly when its reason applies: no signal sent, child dead, health probe, ready probe, ready line, or trace missing, in this order |
| RestartBenchmark.SlopeSpansAllRestarts | scripts/bench-gateway-restart.ts:506-517 | with readings at both ends the slope is the mean change per restart |
| RestartBenchmark.RunGatewaySample | scripts/bench-gateway-restart.ts:1305-1433 | the sample records the restarts that were made, and its code is the first thing that failed: the start, a restart, the exit of the child, the clean-up; an initial failure runs no restart |
| RestartBenchmark.NoCodeIffNothingFailed | scripts/bench-gateway-restart.ts:1305-1433 | a sample has no failure code if and only if exactly `restarts` restarts ran and all passed, it started and was cleaned up without failure, and its child lived until teardown |
| RestartBenchmark.FailureFreeIffNoCode | scripts/bench-gateway-restart.ts:1395-1433 | and exactly then it is failure-free, iterations included |
| RestartBenchmark.NothingCountedIffFailureFree | scripts/bench-gateway-restart.ts:561-587 | no failure is counted, and no first failure code named, exactly when every sample is failure-free |
| RestartBenchmark.FailureRateIsARate | scripts/bench-gateway-restart.ts:561-587 | the failure rate lies in [0, 1] and is positive exactly when a first failure code is named; its value is the next row |
| RestartFacts.RateIsFailuresPerUnit | scripts/bench-gateway-restart.ts:561-587 | rate times units is failures: the units are all restarts and the samples that failed outside of their restarts, the failures the failed ones among them; without units the rate is zero |
| RestartFacts.SummaryNamesFirst | scripts/bench-gateway-restart.ts:568-571 | the code named first is that of the first sample with one, otherwise that of the first failed restart in order |
| RestartFacts.ReasonDecidesSampleCode | scripts/bench-gateway-restart.ts:1305-1433 | a sample has a code exactly for its reason: the start, the restart that failed or found the child dead, an exit before teardown with a code other than zero or without, or the clean-up, in this order |
| RestartFacts.RssIsReading | scripts/bench-gateway-restart.ts:483-504 | the RSS of a restart is the trace value, else the memory trace value, else the latest snapshot that has one |
| RestartFacts.SlopeIsMeanChange | scripts/bench-gateway-restart.ts:506-517 | there is a slope exactly when there are two readings, and it is the change from the first to the last per restart in between |
| RestartBenchmark.CollectSampleFailures | scripts/bench-gateway-restart.ts:1532-1564 | the findings about a sample are exactly the reasons it lacks evidence for, with its id and number |
| RestartBenchmark.CollectBenchmarkEvidenceFailures | scripts/bench-gateway-restart.ts:1519-1568 | the list holds exactly the findings of all cases |
| RestartBenchmark.NoFindingIffEvidence | scripts/bench-gateway-restart.ts:1519-1568 | there is no finding about a case exactly when it has samples and each failure-free one carries all evidence |
| RestartBenchmark.ShouldFailBenchmark | scripts/bench-gateway-restart.ts:1574-1579 | for any case results: the benchmark fails exactly when a case lacks evidence or, without `--allow-failures`, names a failure |
| RestartBenchmark.SummariesSpeakOfSamples | scripts/bench-gateway-restart.ts:561-587 | for results summarized from their samples that means: fails exactly when a case lacks evidence or, without `--allow-failures`, some sample is not failure-free |
| RestartBenchmark.RecoveryEndsUp | scripts/bench-gateway-restart.ts:675-760 | a probe result with a recovery time comes from a run of the polling loop whose last attempt got a 200 |
| RestartBenchmark.RunCase | scripts/bench-gateway-restart.ts:1435-1466 | the result summarizes exactly one measured sample for each run after the warm-up |
| RestartBenchmark.PassingCaseProvesRestarts | scripts/bench-gateway-restart.ts:1491-1579 | a case result without a reason to fail has samples, and each proves every one of its restarts |
| RestartBenchmark.RunBenchmark | scripts/bench-gateway-restart.ts:1590-1645 | exit code 0 without `--allow-failures`, from the events up: every case has a sample, and in every sample each of the `restarts` restarts was signalled, both probes ended with a 200 after it, ready line, `restart.ready.total` and positive RSS were seen, and the child lived until teardown |
| RestartBenchmark.SlopeFollowsFromReadings | scripts/bench-gateway-restart.ts:1558-1564 | the slope requirement never blocks a sample whose restarts all have positive readings |
| PathMatcher.MatchesParts | scripts/check-policy-config-coverage.ts:209-232 | the recursive matcher decides the declarative meaning of `**`, `*` and literal segments |
| PathMatcher.MatchingIsCompositional | scripts/check-policy-config-coverage.ts:209-232 | a pattern made of two parts matches a value if and only if the value splits into a match of each |
| PathMatcher.PathMatchesPattern | scripts/check-policy-config-coverage.ts:203-207 | the same on dotted text |
| PathMatcher.MatchesAny | scripts/check-policy-config-coverage.ts:199-201 | true exactly when one of the patterns matches |
| PathMatcher.DottedPatternsCompose | scripts/check-policy-config-coverage.ts:203-232 | the dotted pattern `a.b` matches exactly when a boundary of the value separates a match of `a` from a match of `b` |
| ArgumentScanner.QuoteScanState.ConsumeQuotedChar | scripts/check-temp-path-guardrails.ts:55-71 | inside quotes one character moves the quote state as specified; outside it does nothing |
| ArgumentScanner.FindMatchingParen | scripts/check-temp-path-guardrails.ts:73-96 | returns the first unquoted parenthesis that balances the opening one, or -1 exactly when there is none |
| ArgumentScanner.ArgumentSplitter.Take | scripts/check-temp-path-guardrails.ts:105-157 | the loop body moves quotes, depths, the growing piece and the finished arguments as specified |
| ArgumentScanner.SplitTopLevelArguments | scripts/check-temp-path-guardrails.ts:98-162 | the result is the trimmed pieces between top-level commas, without a blank last one; where these commas are is `ArgumentBrackets.CommaSplitsIffAllClosed` |
| ArgumentScanner.PiecesJoinToSource | scripts/check-temp-path-guardrails.ts:98-162 | the untrimmed pieces joined by commas are the source |
| ArgumentScanner.CommaSplitsIffTopLevel | scripts/check-temp-path-guardrails.ts:151-155 | two pieces are separated at a position if and only if it holds a comma outside quotes with all three depths zero |
| ArgumentBrackets.CommaSplitsIffAllClosed | scripts/check-temp-path-guardrails.ts:98-162 | two pieces are separated at a position if and only if it holds a comma outside quotes before which every unquoted opener of each of the three kinds is closed by one of its kind, with what is between them balanced |
| ArgumentBrackets.DepthIsLargestNet | scripts/check-temp-path-guardrails.ts:112-148 | each of the three depths is the largest surplus of unquoted openers over closers of its kind up to the position |
| ArgumentBrackets.QuoteStateIsInQuote | scripts/check-temp-path-guardrails.ts:46-71 | a quote is open exactly if its character was opened outside quotes and has not occurred since but after an odd run of backslashes, and the next character is escaped exactly after such a run |
| ArgumentBrackets.BalanceIsNet | scripts/check-temp-path-guardrails.ts:73-96 | the balance the search for the closing parenthesis uses counts unquoted parentheses only |
| ArgumentBrackets.ArgumentsAreTrimmedPieces | scripts/check-temp-path-guardrails.ts:158-161 | there is one argument per piece, trimmed, and none for a last piece of white space |
| ArgumentScanner.ScannersAgree | scripts/check-temp-path-guardrails.ts:189-194 | on the slice the parenthesis search delimits, the split never needs its parenthesis clamp and ends unquoted at depth 0 |
| ReaderPool.RunWorkers | scripts/check-temp-path-guardrails.ts:223-263 | for any number of workers and any schedule: all workers stop, each index is claimed exactly once, and the output is the sequential read |
| ReaderPool.ReadRuntimeSourceFiles | scripts/check-temp-path-guardrails.ts:223-263 | with the pool's own size the result is the sequential read in input order |
| ReaderPool.SequentialReadIsExact | scripts/check-temp-path-guardrails.ts:236-250 | the sequential read has, in order, one file for each path that is not empty and could be read, with its relative path and source |
| ImportClosure.ResolveInstalledDistRelativeImport | scripts/marketingclaw-npm-postpublish-verify.ts:559-593 | the first spelling that stays inside `dist` and exists, only for relative specifiers |
| ImportClosure.ResolvesToFirstInside | scripts/marketingclaw-npm-postpublish-verify.ts:559-593 | only a specifier that starts with a dot resolves, and to the first of its spellings that is an existing file inside `dist` |
| ImportClosure.InspectFile | scripts/marketingclaw-npm-postpublish-verify.ts:611-645 | a file passes exactly when it is self-contained, and then yields exactly its resolvable relative imports; otherwise the error says what is wrong with it, of several imports of `zod` the first |
| ImportClosure.CollectInstalledPluginSdkZodArtifactErrors | scripts/marketingclaw-npm-postpublish-verify.ts:595-648 | terminates; no error if and only if every file reachable from the entry is a regular file within the size limit that parses and imports no `zod`; the artifact is reported missing exactly when the entry is, and any error is about a reachable file and says what is wrong with it |
| LabelBatches.FetchOpenLabelItemBatches | scripts/label-open-issues.ts:577-637 | for any chain of pages, endless ones included when the limit is reached: the batches concatenate to the first `limit` items of the chain; every batch but the last has exactly 500 items, the last 1 to 500, and they are numbered and counted right; the total of a batch is the last one given by the pages read when it was yielded |
| LabelBatches.Fetcher.TakePage | scripts/label-open-issues.ts:603-619 | taking a page extends what was taken by its items up to the limit and keeps batches full |
| LabelBatches.Labeler.RunBatch | scripts/label-open-issues.ts:895-956 | one batch with its two-step save, cut short anywhere, leaves memory and file as the step function says |
| LabelBatches.NothingNewIsNotSaved | scripts/label-open-issues.ts:895-956 | a batch whose items are all recorded takes no step and does not touch the file |
| LabelBatches.Labeler.RunPhase | scripts/label-open-issues.ts:895-956 | the loop over the batches, cut short anywhere, leaves memory and file as the phase function says, of which the next rows speak |
| LabelBatches.PhaseMemory | scripts/label-open-issues.ts:895-956 | wherever a phase stops, memory covers every completed batch, holds nothing that was not handled, and nothing recorded before is handled again |
| LabelBatches.PhaseDisk | scripts/label-open-issues.ts:895-956 | after a crash inside a save the file is unreadable; otherwise it has every completed batch, nothing that was not handled, and lacks at most the interrupted batch |
| LabelBatches.FileCoversIffNotSaving | scripts/label-open-issues.ts:895-956 | wherever a phase stops, the file covers every completed batch if and only if it did not stop inside a save or every completed batch is empty; inside a save the next run starts from nothing |
| LabelBatches.CrashInSecondSaveForgets | scripts/label-open-issues.ts:450-453 | a concrete run of two batches that crashes inside the second save and loses the first batch |
| LabelBatches.RestartHandlesAgain | scripts/label-open-issues.ts:868-874 | a restart that gets through handles again everything recorded of these batches after a crash inside a save, and at most items of the interrupted batch otherwise |
| LabelBatches.DryRunKeepsFile | scripts/label-open-issues.ts:895-956 | a dry run never touches the file |
| LabelBatches.RunMain | scripts/label-open-issues.ts:895-1032 | both phases over one memory and one file, cut short anywhere, leave the file and complete the batches as the two phase functions say |
| LabelBatches.MainFileCoversIffNotSaving | scripts/label-open-issues.ts:895-1032 | wherever the whole run stops, the file covers every completed batch of issues and of pull requests if and only if it did not stop inside a save or all those batches are empty; inside a save both phases are lost |
| LabelBatches.CrashInPullRequestsForgetsIssues | scripts/label-open-issues.ts:450-453 | a concrete run that crashes inside a save of a pull request and loses the issue |

## Left out

- TranslationTree.SetNestedLookup: nested maps are values; the in-place update of shared nested objects, inherited property names such as `constructor` and `__proto__`, and the enumeration order of integer-like keys are not modelled
- TranslationBatches.BuildTranslationBatches: the character budget is an integer; a fractional budget acts like its integer part because all counts are integers
- BatchTranslation.TranslateBatch: lower-casing of error messages is ASCII only; delays, progress output and closing the client between attempts are not modelled; an answer that names an inherited property is not distinguished
- SyncSpec.SecondRunIsClean: the hash of cache keys is assumed free of collisions and never empty; the four files are the values they round-trip to, so a file that differs only in its formatting counts as equal; `localeCompare` is the order of code units
- RunProcess.ReraiseIsSafe: safety only; a call started during the kill grace can keep the process from re-raising
- RunProcess.CallsSettleOnceAndRightly: the wording of error messages, the truncation banner on stderr and the conversion of the output limit from its option are not modelled
- CrossOsCommands.CommandsSettleOnceAndRightly: captured output and its byte tail, the heartbeat, and log write errors before the command is finalized (which end the process) are not modelled
- CrossOsCommands.ForwardedExitIsSafe: gateways are killed or have left the registry, not always killed or closed, because the script unregisters them on a close or an error without a kill
- RestartProbe.WaitForRestartProbe: the shared event list of two concurrent probes and the pause between attempts are not modelled
- RestartBenchmark.RunGatewaySample: numbers are reals or not finite, without rounding or overflow; CPU, file-descriptor and thread figures, the start-up phase and the parsing of trace lines are inputs
- LabelBatches.FetchOpenLabelItemBatches: a chain of pages that neither ends nor reaches the limit, on which the script runs for ever, is not covered
- LabelBatches.PhaseDisk: a file cut short inside a save is always unreadable; one that lacks only its last line break, and so still parses, is not distinguished
- ImportClosure.CollectInstalledPluginSdkZodArtifactErrors: path arithmetic, file status and the extraction of import specifiers are given functions
- ArgumentScanner.SplitTopLevelArguments: one character is one UTF-16 unit, while the script iterates over code points; the delimiters are all single units
- Spawning, signals, sockets, HTTP, files and prompts are events or given functions; Windows branches (`taskkill`, quoting of `cmd.exe`) are not modelled
- SHA-256, JSON and TypeScript rendering, the formatter and UTF-8 decoding across chunk boundaries
- The classification report of the policy coverage script and the detection of dynamic `os.tmpdir()` joins around the scanner
- Command-line parsing, usage text, progress output, raw-copy baselines, prompts, GitHub plumbing and the native-app translation entry point
