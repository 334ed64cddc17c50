# Verified models of the IntelliHelper command line

Dafny models of the parts of the IntelliHelper workspace that carry state or a protocol, with
proofs of what they promise for every input and every run. `dafny verify dfyconfig.toml` checks
the whole project.

| part | files | what is proved |
|---|---|---|
| conversation compaction | `Conversation`, `Pairing`, `HistoryRepair`, `RepairLaws`, `RepairMeaning`, `Text`, `Truncation`, `Budget`, `BudgetCosts`, `Search`, `SummaryText`, `SummaryBlocks`, `UserQuery`, `CompactedHistory` | every step keeps each tool result behind the call that owns it; histories are repaired, fitted to a budget and rebuilt around a summary without losing the recent turn; no control tag survives the summary cleaner |
| incremental code index | `Interner`, `Coalescer`, `IndexActor` | the interner refines a sequence of distinct strings for every hash; merged file events against events replayed one by one; what every query sees under every schedule |
| line reader | `LineReader`, `LineProgress` | bytes are conserved and errors are the same for every chunking and every schedule of polls, and every schedule in which both parties get enough goes serves all that can be delivered and tells of an error if there is one |
| worktree garbage collection | `GcRules`, `RecordTable`, `GcChanges`, `GcPasses`, `WorktreeGc`, `OrphanScan` | what a pass may remove, and on what evidence directly before it, while other processes move the world; dry-run parity; a pass that stops at the first failed scan; orphan scans that can be retried |
| crash file | `Octets`, `CrashFormat`, `Utf8Meaning`, `CrashHandler` | writer and parser are inverse; the file records the crash after every write, wherever the handler is stopped |
| segments and usage | `Segments`, `UsageLedger` | names and paths read back, size of a rendered segment, totals that agree with their split |

`Wrappers`, `Numbers`, `Paths` and `Seqs` hold an option type, integer bounds, the type of paths and one
fact about sequences.

Code that changes vectors, maps, buffers or fields in place is modelled by methods with loops and
by classes; each is tied to a specification function or predicate, about which the laws are then
proved. Expressions are functions. What the code cannot decide itself is a parameter: the token
cost, the hash, the chunks of a stream, memory, the file contents, the moves of other processes
(`outside`) and the success of each operation (`luck`). Theorems hold for all of them.

Where the code does less than its documentation says, the model follows the code:

- `repair_history` is documented as idempotent. It is, exactly when no assistant message repeats a
  call id that is left unanswered (`RepairTwice`, counterexample `RepairTwiceCanDiffer`).
- A write and a removal of one file within a batch cancel each other, although the file may have
  been indexed before: then its symbols stay (`CoalescingAgrees` for a batch, `RunExactly` for a whole
  run, counterexample `RemovalCanBeLost`).
- Garbage collection re-checks the fresh row but removes the path it listed first. The check covers
  that path when all of it lies in the path that the row names now (`ClearedPathSafe`), and where every
  path that resolves does so to itself only then (`RepointedRowClears`).
- A rendered segment can exceed its cap, since the separators between turns are not counted
  (`OverrunExactly`, `ManyTurnsOverrun`), and since the preamble is not cut (`LongPreamble`).
- Cut text can be longer than its limit, and a cut tool result can cost more than its share: exactly
  when the marker has no room (`FitsExactly`, `CutItemCost`). So a fitted history can exceed its budget;
  the exact condition is `FittedWithin`.
- A string of 65536 bytes or more is interned under a cut length and does not read back
  (`StringInterner.InternBytes`).

## Model

| member | source | states |
|---|---|---|
| `Pairing.ValidateCompactedHistory` | crates/codegen/chat-state/src/compaction_utils.rs:900-919 | reports, in order, the ids of exactly those results that no earlier assistant item declares |
| `Pairing.SanitizeCompactedHistory` | crates/codegen/chat-state/src/compaction_utils.rs:936-963 | keeps exactly the other items, and reports exactly those ids |
| `Pairing.StripDisplacedToolResults` | crates/codegen/chat-state/src/compaction_utils.rs:1015-1041 | keeps a result exactly when the assistant item before its contiguous run declares its id, and reports the ids of the rest |
| `PairingLaws.ScansMean` | crates/codegen/chat-state/src/compaction_utils.rs:900-1041 | the running-set scans of the three functions select by position in the history |
| `PairingLaws.StrippedIsPaired` | crates/codegen/chat-state/src/compaction_utils.rs:1015-1041 | the stripped history is paired; it differs from the input, and an id is reported, exactly when the input was not; a second pass changes nothing |
| `PairingLaws.SanitizedValidates` | crates/codegen/chat-state/src/compaction_utils.rs:900-963 | the sanitized history validates, one item is dropped per reported id, and sanitizing is idempotent |
| `PairingLaws.PairedValidates` | crates/codegen/chat-state/src/compaction_utils.rs:900-963 | a paired history validates and is left alone |
| `PairingLaws.StrippedRefinesSanitized` | crates/codegen/chat-state/src/compaction_utils.rs:936-1041 | the stripped history is a subsequence of the sanitized one that sanitizing leaves alone, and sanitizing first makes no difference |
| `PairingLaws.OtherItemsKept` | crates/codegen/chat-state/src/compaction_utils.rs:936-1041 | all items but tool results are kept, in order |
| `HistoryRepair.DedupDuplicateToolResults` | crates/codegen/intellihelper-sampling-types/src/conversation.rs:2169-2224 | in each run behind a calling assistant item the last result of each id is left, and the count of removed items is right |
| `HistoryRepair.RepairDanglingToolCalls` | crates/codegen/intellihelper-sampling-types/src/conversation.rs:2042-2102 | after each calling item's run a placeholder result stands for each unanswered call, in call order, and the count is right |
| `RepairLaws.RepairHistory` | crates/codegen/chat-state/src/compaction_utils.rs:964-1003 | the three passes in a row; each count of the report is exact, and the report says changed exactly when the history changed |
| `RepairLaws.PassesFuse` | crates/codegen/chat-state/src/compaction_utils.rs:989-1003 | the three passes equal one pass over blocks of an item and its run |
| `RepairMeaning.RepairedBlock` | crates/codegen/chat-state/src/compaction_utils.rs:964-1003 | what repair leaves, item by item: an item stays; of the results right behind it those that are the last to answer one of its calls, unchanged and in order; then a result saying so for each call that none answers; the rest in the same way |
| `RepairMeaning.LeadingResultsGo` | crates/codegen/chat-state/src/compaction_utils.rs:989-1003 | results that lead a history go |
| `RepairLaws.RepairTwice` | crates/codegen/chat-state/src/compaction_utils.rs:964-1003 | repairing twice is repairing once if and only if no assistant item repeats an unanswered call id |
| `RepairLaws.RepairTwiceCanDiffer` | crates/codegen/chat-state/src/compaction_utils.rs:964-1003 | a history on which the second repair changes something |
| `RepairLaws.RepairPairs` | crates/codegen/chat-state/src/compaction_utils.rs:989-1003 | any history is paired after repair, and only results were lost, added or moved |
| `RepairLaws.SettledMeans` | crates/codegen/chat-state/src/compaction_utils.rs:964-988 | the normal form of repair is the provider's rule: each result in its owner's run, each call answered there, none twice |
| `RepairLaws.RepairReady` | crates/codegen/chat-state/src/compaction_utils.rs:964-1003 | one repair meets the provider's rule if and only if no assistant item repeats an unanswered call id, and leaves a history alone if and only if it meets the rule already |
| `RepairLaws.ReportMeans` | crates/codegen/chat-state/src/compaction_utils.rs:964-1003 | the three counts are empty exactly when nothing was rewritten |
| `Truncation.FloorBoundary` | crates/codegen/chat-state/src/compaction_utils.rs:226-241 | the search for a character boundary finds the largest one within the limit |
| `Truncation.TruncateTextToBytes` | crates/codegen/chat-state/src/compaction_utils.rs:226-241 | nothing exactly when the text fits, else the cut text |
| `Truncation.TruncatedConserves` | crates/codegen/chat-state/src/compaction_utils.rs:226-241 | kept prefix plus marker; kept and dropped bytes add up; the prefix is the longest that leaves the marker its reserve |
| `Truncation.FitsExactly` | crates/codegen/chat-state/src/compaction_utils.rs:226-241 | the result is within the limit if and only if the text fits uncut, or beside the kept prefix there is room for 56 bytes and the digits of the dropped count |
| `Truncation.TruncatedFits` | crates/codegen/chat-state/src/compaction_utils.rs:226-241 | so with 64 bytes or more and fewer than 10^8 dropped it fits |
| `Truncation.TinyLimitsOverrun` | crates/codegen/chat-state/src/compaction_utils.rs:226-241 | and below 57 bytes no cut text does |
| `Truncation.TruncateParts` | crates/codegen/chat-state/src/compaction_utils.rs:212-220 | each text part of a user item is cut to the limit, images stay |
| `Truncation.TruncateItemToTokens` | crates/codegen/chat-state/src/compaction_utils.rs:197-224 | an item's text cut to four bytes a token, its ids kept |
| `Truncation.OnlyTextCut` | crates/codegen/chat-state/src/compaction_utils.rs:197-224 | only text is cut: ids, images, calls and the reason of a user item stay, each text part is cut by itself, other items stay as they are |
| `Truncation.MarkerReads` | crates/codegen/chat-state/src/compaction_utils.rs:226-241 | the text of the marker |
| `Budget.SuffixWithin` | crates/codegen/chat-state/src/compaction_utils.rs:128-162 | the backward scan finds the longest suffix within budget |
| `Budget.FindTailRun` | crates/codegen/chat-state/src/compaction_utils.rs:163-195 | where the trailing run of results begins |
| `Budget.RecoverTruncatedTailUnit` | crates/codegen/chat-state/src/compaction_utils.rs:163-195 | the last run with its owner, or the last item, cut to its share |
| `BudgetLaws.RecoveredUnit` | crates/codegen/chat-state/src/compaction_utils.rs:163-195 | a history that ends in results: the item right before them if it made calls, as it is, and each result cut to the share |
| `BudgetLaws.RecoveredLast` | crates/codegen/chat-state/src/compaction_utils.rs:163-195 | and one that ends otherwise: its last item cut to the budget |
| `BudgetLaws.ShareExactly` | crates/codegen/chat-state/src/compaction_utils.rs:163-195 | the share is the largest number of tokens by which all results fit beside their owner, and never less than one |
| `Budget.FitConversationToBudget` | crates/codegen/chat-state/src/compaction_utils.rs:128-162 | a fitting history is left alone; else the system item and the longest suffix within budget less the results that lead it, or the recovered tail |
| `BudgetLaws.FittedPaired` | crates/codegen/chat-state/src/compaction_utils.rs:128-195 | a paired history stays paired in every branch, for any cost function |
| `BudgetLaws.FittedCost` | crates/codegen/chat-state/src/compaction_utils.rs:128-162 | when a suffix is kept, the result is within budget if the system item alone is |
| `BudgetCosts.FittedWithin` | crates/codegen/chat-state/src/compaction_utils.rs:128-241 | the fitted history is within the limit if and only if the system item is and, when no suffix was kept, the tail's tokens counted from the uncut text (kept bytes, marker and digits of each cut) are within what the system item leaves |
| `BudgetCosts.RecoveredIs` | crates/codegen/chat-state/src/compaction_utils.rs:163-195 | the recovered tail costs exactly those tokens, whether it is one message or a run of results behind its owner |
| `BudgetCosts.CutItemTokens` | crates/codegen/chat-state/src/compaction_utils.rs:197-241 | so does every cut item: a result, an assistant message with its uncut arguments, a user message with its parts and images |
| `BudgetCosts.RecoveredMessageCost` | crates/codegen/chat-state/src/compaction_utils.rs:163-195 | for a final assistant message: if and only if its cut text and uncut arguments are |
| `BudgetCosts.CutItemCost` | crates/codegen/chat-state/src/compaction_utils.rs:197-241 | the exact condition under which a cut result or assistant message costs no more than the tokens it was cut to, by the program's estimate |
| `BudgetCosts.TwoLongPartsOverrun` | crates/codegen/chat-state/src/compaction_utils.rs:212-220 | so a user message with two long text parts costs more than the limit, since each part gets the whole of it |
| `BudgetCosts.TruncatedResultCost` | crates/codegen/chat-state/src/compaction_utils.rs:197-241 | so a result of fewer than 10^8 bytes cut to 16 tokens or more costs no more |
| `BudgetCosts.TinyShareOverruns` | crates/codegen/chat-state/src/compaction_utils.rs:163-241 | and one cut to fewer than 14 tokens costs more |
| `BudgetCosts.UnitCost` | crates/codegen/chat-state/src/compaction_utils.rs:163-195 | so shares of 16 tokens or more keep the recovered unit, owner included, within budget |
| `SummaryText.PeelAnalysis` | crates/codegen/chat-state/src/compaction_utils.rs:637-659 | the loop that drops leading analysis blocks terminates with what is left |
| `SummaryText.CollapseNewlines` | crates/codegen/chat-state/src/compaction_utils.rs:670-672 | repeated replacement ends with no three newlines in a row |
| `SummaryText.FormatCompactSummary` | crates/codegen/chat-state/src/compaction_utils.rs:636-709 | the whole cleaner terminates on every text, and its result is the one that the laws below describe |
| `SummaryLaws.FormattedIsClean` | crates/codegen/chat-state/src/compaction_utils.rs:636-709 | its output holds none of the six control tags, no three newlines in a row and no outer white space |
| `SummaryLaws.FormattedFixpoint` | crates/codegen/chat-state/src/compaction_utils.rs:636-709 | a text is left alone if and only if it is clean |
| `SummaryLaws.FormattedTwice` | crates/codegen/chat-state/src/compaction_utils.rs:636-709 | a second pass changes nothing |
| `SummaryLaws.DefusedAllLacks` | crates/codegen/chat-state/src/compaction_utils.rs:702-709 | replacing the tags one after the other brings none of them back |
| `SummaryBlocks.LeadingAnalysisGoes` | crates/codegen/chat-state/src/compaction_utils.rs:637-659 | a leading analysis block (behind white space, before the first summary, or opening it) goes whole, whatever it holds and whatever is around it |
| `SummaryBlocks.OpenAnalysisGoes` | crates/codegen/chat-state/src/compaction_utils.rs:653-658 | one that is never closed goes up to the next summary, and no further |
| `SummaryBlocks.OpenAnalysisTakesAll` | crates/codegen/chat-state/src/compaction_utils.rs:653-658 | and with no summary to come, all that follows it goes |
| `SummaryBlocks.LateAnalysisStays` | crates/codegen/chat-state/src/compaction_utils.rs:639-646 | an analysis block behind other text, with no summary about, stays |
| `SummaryBlocks.SummaryKept` | crates/codegen/chat-state/src/compaction_utils.rs:660-697 | the text of a summary block stays whole behind the label, and so does the text around it, if it starts with a numbered section or holds no end of an analysis; a second opening tag at its start goes |
| `SummaryBlocks.NotesGo` | crates/codegen/chat-state/src/compaction_utils.rs:685-697 | in a block that starts otherwise, notes go up to the last end of an analysis, and exactly what follows stays |
| `SummaryBlocks.SummaryBehindOpenAnalysis` | crates/codegen/chat-state/src/compaction_utils.rs:653-697 | a summary behind an analysis that is never closed is kept in the same way |
| `SummaryBlocks.NothingToUnwrap` | crates/codegen/chat-state/src/compaction_utils.rs:660-669 | a text without a closed summary and without an analysis is only polished |
| `SummaryBlocks.NumberedExactly` | crates/codegen/chat-state/src/compaction_utils.rs:685-690 | a section is numbered if and only if a digit comes first but for marks of a heading, a list or a quote |
| `SummaryBlocks.NumberedSummaryKept` | crates/codegen/chat-state/src/compaction_utils.rs:660-697 | so a numbered summary is kept to the letter, tags quoted in it only defused |
| `SummaryBlocks.SummaryStaysVisible` | crates/codegen/chat-state/src/compaction_utils.rs:660-709 | no visible character of such a summary, or of the text around it, is lost |
| `SummaryLaws.PolishedKeepsVisible` | crates/codegen/chat-state/src/compaction_utils.rs:670-709 | defusing, squeezing and trimming touch white space and zero-width spaces only |
| `SummaryLaws.DefusedAllOnlyAdds` | crates/codegen/chat-state/src/compaction_utils.rs:702-709 | defusing adds zero-width spaces and changes nothing else |
| `UserQuery.StripTag` | crates/codegen/chat-state/src/compaction_utils.rs:260-278 | the loop removes the first block of a tag until none is left |
| `UserQuery.StripSystemTags` | crates/codegen/chat-state/src/compaction_utils.rs:243-279 | the same for each tag in turn |
| `UserQuery.BlockGoes` | crates/codegen/chat-state/src/compaction_utils.rs:260-278 | the first block of a tag goes and the text around it stays |
| `UserQuery.SingleBlockGoes` | crates/codegen/chat-state/src/compaction_utils.rs:243-279 | so a text with one block is the text around it |
| `UserQuery.StrippedFixpoint` | crates/codegen/chat-state/src/compaction_utils.rs:243-279 | a text is left alone if and only if it is trimmed and holds no block of any tag |
| `UserQuery.QueryBetweenTags` | crates/codegen/chat-state/src/compaction_utils.rs:281-290 | a query between its tags is read without what is around them |
| `UserQuery.QueryWithoutTags` | crates/codegen/chat-state/src/compaction_utils.rs:281-290 | without the tags, or with an opening one that is not closed, the whole text is the query |
| `UserQuery.WrapRoundTrip` | crates/codegen/chat-state/src/compaction_utils.rs:281-290 | a wrapped query is read back unchanged if and only if it is left alone by stripping and holds no closing tag |
| `CompactedHistory.LastReal` | crates/codegen/chat-state/src/compaction_utils.rs:351-369 | the last item that is a real user turn, or none |
| `CompactionLaws.RealTurnMeans` | crates/codegen/chat-state/src/compaction_utils.rs:351-369 | a turn with a synthetic reason is not real; one with an image is; one with text alone is if and only if its query is not reserved |
| `CompactionLaws.QueryMeans` | crates/codegen/chat-state/src/compaction_utils.rs:281-290 | the query of a turn is that of its texts, a line each |
| `CompactionLaws.ContextMeans` | crates/codegen/chat-state/src/compaction_utils.rs:445-465 | what is remembered: the assistant messages behind the last real turn, unchanged, and placeholders with the same ids, a fixed text and no images for the results there, all in order and nothing else; and the query of that turn |
| `CompactionLaws.HistoryMeans` | crates/codegen/chat-state/src/compaction_utils.rs:839-882 | what stands where in a rebuilt history: system message, prefix, instructions, wrapped query, recent messages as they are, summary, reminder |
| `CompactionLaws.CompactionRoundTrip` | crates/codegen/chat-state/src/compaction_utils.rs:839-882 | from a compacted history the recent messages are read back always, and the last query if and only if it can be unwrapped and is not reserved |
| `CompactionLaws.RoundsKeepContext` | crates/codegen/chat-state/src/compaction_utils.rs:445-465 | any number of compactions in a row keep the recent messages and such a query |
| `CompactionLaws.RoundsKeepTalk` | crates/codegen/chat-state/src/compaction_utils.rs:445-465 | so after any number of compactions the recent messages are the assistant messages behind the last real turn of the first history, unchanged, and placeholders for its results |
| `CompactionLaws.CompactionKeepsPairing` | crates/codegen/chat-state/src/compaction_utils.rs:839-919 | compacting a paired history gives a paired history that validates |
| `Interner.StringInterner.constructor` | crates/codegen/codebase-graph/src/interner.rs:89-95 | a new interner stands for no strings |
| `Interner.FileAll` | crates/codegen/codebase-graph/src/interner.rs:286-303 | the loop over a table files each readable id under the hash of its string, ascending, and nothing else |
| `Interner.StringInterner.FromParts` | crates/codegen/codebase-graph/src/interner.rs:286-303 | buckets rebuilt from any arena and table hold exactly the readable ids of each hash, ascending |
| `Interner.StringInterner.GetBytesId` | crates/codegen/codebase-graph/src/interner.rs:157-176 | the least id that reads back the string, or none if there is none, for every hash function |
| `Interner.LookupsAgree` | crates/codegen/codebase-graph/src/interner.rs:286-303 | the arena and the table alone decide every lookup, so rebuilt buckets answer identically |
| `Interner.StringInterner.InternBytes` | crates/codegen/codebase-graph/src/interner.rs:119-152 | a known string changes nothing and gets its id; a new one is appended under the next id; within 32 bits it reads back if and only if it has at most 65535 bytes, and then the strings stay distinct and old ids keep theirs |
| `Interner.StringInterner.Clear` | crates/codegen/codebase-graph/src/interner.rs:254-258 | a cleared interner stands for no strings |
| `Interner.RunKeepsIds` | crates/codegen/codebase-graph/src/interner.rs:119-152 | over any list of interned strings ids keep their strings, are shared by equal strings only, and are dense |
| `Interner.InternAll` | crates/codegen/codebase-graph/src/interner.rs:119-152 | interning a list leaves the strings there were and the new ones of the list behind them, each once, and the strings of the list stand under the ids returned |
| `Coalescer.CoalescedEvents.Insert` | crates/codegen/codebase-graph/src/index_manager.rs:1545-1569 | after any touches the entry of each path is what its last two touches say: the last one decides, a removal right after a write leaves nothing, a write after a removal is a creation |
| `Coalescer.CoalescedEvents.Add` | crates/codegen/codebase-graph/src/index_manager.rs:1531-1543 | the touches of an event are added in order; a lone rename of two different paths leaves the first as removed and the second as created and nothing else; any other lone event leaves each of its paths, and no other, with its kind |
| `IndexActor.IndexManager.ApplyCoalesced` | crates/codegen/codebase-graph/src/index_manager.rs:1133-1161 | in whatever order the map yields its entries, each key ends with what one of the batch's paths for it says, untouched keys are unchanged, and the counter grows by the indexed paths |
| `IndexUpdates.CoalescingAgrees` | crates/codegen/codebase-graph/src/index_manager.rs:1133-1161 | a coalesced batch gives a key the entry that replaying its events one by one gives, if and only if not both its last two touches are a write and a removal and it was indexed before |
| `IndexUpdates.CoalescingFreshens` | crates/codegen/codebase-graph/src/index_manager.rs:1133-1161 | in the same cases, and no others, the entry is that of the file on disk |
| `IndexUpdates.RemovalCanBeLost` | crates/codegen/codebase-graph/src/index_manager.rs:1552-1556 | a save and a removal of an indexed file in one batch leave it indexed |
| `IndexActor.RenameMoves` | crates/codegen/codebase-graph/src/index_manager.rs:1531-1543 | handled on its own, a rename takes the old path out of the index, puts what the disk has for the new one in, and leaves the rest alone |
| `IndexActor.MergedRenameMoves` | crates/codegen/codebase-graph/src/index_manager.rs:1133-1161 | and so it does merged and applied in any order |
| `IndexActor.EventHolds` | crates/codegen/codebase-graph/src/index_manager.rs:1539-1542 | any other event makes each of its paths what the disk has for it, or nothing when it is a removal |
| `IndexActor.EventElsewhere` | crates/codegen/codebase-graph/src/index_manager.rs:1539-1542 | and leaves all other keys alone |
| `IndexActor.BatchIsEvents` | crates/codegen/codebase-graph/src/index_manager.rs:1531-1543 | a batch is its events one after the other |
| `IndexActor.IndexManager.Drain` | crates/codegen/codebase-graph/src/index_manager.rs:846-864 | whenever the channel is found empty, what was merged is exactly the file commands taken, in order |
| `IndexActor.IndexManager.ProcessCommand` | crates/codegen/codebase-graph/src/index_manager.rs:838-953 | a command with what it drains is handled in order, one level of recursion deep, and the loop goes on unless the last was a shutdown |
| `IndexActor.IndexManager.BackgroundRefresh` | crates/codegen/codebase-graph/src/index_manager.rs:1100-1115 | each key holds what the disk has for the last supported stale path under it; else nothing if it was deleted; else what it held |
| `IndexActor.IndexManager.RunLoop` | crates/codegen/codebase-graph/src/index_manager.rs:797-830 | commands are handled in order up to a shutdown or the end, and each query is answered once, in order, on an index that has taken in exactly the commands sent before it, under every schedule |
| `IndexActor.RunExactly` | crates/codegen/codebase-graph/src/index_manager.rs:838-953 | however a run was cut into batches, the entry of a file is that of handling the commands one at a time, if and only if not its removal is lost: cancelled in the last batch that touches it while it was indexed, with no rebuild or refresh of it behind |
| `IndexActor.RunAgrees` | crates/codegen/codebase-graph/src/index_manager.rs:838-953 | so every run agrees with the sequential one on every file whose last two touches are not a write and a removal |
| `IndexActor.AnswersAgree` | crates/codegen/codebase-graph/src/index_manager.rs:838-953 | there is one answer for each query, in order, and each agrees in this way with the commands before its query |
| `LineStream.ReadLineCapped` | crates/codegen/acp-lib/src/line_reader.rs:140-177 | the outcome is that of the flat bytes, however they are chunked, and a returned line is taken off their front |
| `LinePipe.RunKeepsInv` | crates/codegen/acp-lib/src/line_reader.rs:62-132 | the protocol invariant holds in every state of every run of turns and polls |
| `LinePipe.PollHandsOut` | crates/codegen/acp-lib/src/line_reader.rs:96-132 | the bytes of a response, no more than there is room for, are those by which what was served grows; an error is reported exactly when one is answered |
| `LinePipe.RunConserves` | crates/codegen/acp-lib/src/line_reader.rs:62-132 | in every state the bytes of all answers so far, what is stashed, is queued and is unread make up the source in this order |
| `LinePipe.PollTells` | crates/codegen/acp-lib/src/line_reader.rs:96-132 | told on the bytes handed out: pending only between lines with nothing held; an error only after all deliverable bytes, and the right one; end of stream only at the end |
| `LinePipe.EndingMeans` | crates/codegen/acp-lib/src/line_reader.rs:140-177 | without a fault of the source a stream breaks if and only if behind some line start no newline comes within the limit though more bytes do |
| `LinePipe.StopsAt` | crates/codegen/acp-lib/src/line_reader.rs:140-177 | what can be delivered is exactly what comes before the first line that is too long, or before a last line that a fault cuts off, and the error is the one of these two |
| `LinePipe.RunsThrough` | crates/codegen/acp-lib/src/line_reader.rs:140-177 | and else the whole source |
| `LinePipe.DeliverableMeans` | crates/codegen/acp-lib/src/line_reader.rs:62-132 | what is delivered is a prefix of the source, and all of it when the stream does not break |
| `LineProgress.AlwaysUseful` | crates/codegen/acp-lib/src/line_reader.rs:62-132 | while not all is done, a turn of the reader task or any read with room in it is of use |
| `LineProgress.RunFinishes` | crates/codegen/acp-lib/src/line_reader.rs:62-132 | under every schedule that falls into three rounds a byte and three more, in each of which the reader task gets a turn and the consumer a read with room in it, in any order and however often: the bytes of all answers are the deliverable ones, and one of the answers was an error if and only if the stream breaks |
| `LineProgress.LongLineReported` | crates/codegen/acp-lib/src/line_reader.rs:62-177 | so without a fault of the source an error is answered if and only if some line is too long, and else the whole source is handed out |
| `LineProgress.HandedUpToLongLine` | crates/codegen/acp-lib/src/line_reader.rs:62-177 | and with one, exactly what comes before the first such line |
| `LineProgress.TakingTurns` | crates/codegen/acp-lib/src/line_reader.rs:62-132 | the two parties taking turns is such a schedule |
| `LinePipe.LineBufferedRead.Turn` | crates/codegen/acp-lib/src/line_reader.rs:62-93 | one turn of the reader task is the producer step of the protocol |
| `LinePipe.LineBufferedRead.PollRead` | crates/codegen/acp-lib/src/line_reader.rs:96-132 | one poll is the consumer step; the bytes answered are those by which what was served grows, and they land at the front of the buffer, the rest of it unchanged |
| `GcRules.ReclaimableMeans` | crates/codegen/fast-worktree/src/api.rs:1753-1782 | the check before a removal holds if and only if, told by the fields of record and options: the kind is not skipped, its own limit is not `None`, creation and last use both lie further back than its own limit or else the general one (exactly, in spite of saturation), the creator's process does not answer, and by none of its names, written or resolved, is a process or a protected path at or below it |
| `GcRules.FirstPassMeans` | crates/codegen/fast-worktree/src/api.rs:1848-1884 | a candidate of the first pass is what that check would take in the same world, and with force a record of a kind that expires, idle for too long; so a kind that never expires is never a candidate |
| `GcRules.IdleExactly` | crates/codegen/fast-worktree/src/api.rs:1533-1542 | when a kind never expires, and when a record is idle for too long, in terms of the options and the record |
| `GcRules.AgePathMeans` | crates/codegen/fast-worktree/src/api.rs:1544-1546 | the age pass is on if and only if there is a general limit or an entry for some kind |
| `WorktreeGc.Collector.RemoveWorktree` | crates/codegen/fast-worktree/src/api.rs:612-625 | in any company: when the removal fails nothing is changed; when it works the directory goes, and at the next step, if the table opens, the record of what its path resolves to then |
| `WorktreeGc.Collector.Unregister` | crates/codegen/fast-worktree/src/db/queries.rs:68-73 | in any company: the row with the id goes, if the call works, nothing else is changed, and the answer says whether there was one |
| `WorktreeGc.Collector.SweepDead` | crates/codegen/fast-worktree/src/db/queries.rs:211-231 | in any company: rows are only marked, each for a listed live record whose directory was missing a step before; all of them when nothing disturbs or fails |
| `WorktreeGc.Collector.DeadPass` | crates/codegen/fast-worktree/src/api.rs:1800-1826 | in any company: rows are only marked for missing directories and dropped for records listed as dead; a dry run changes nothing; undisturbed the counts are equal and exactly the live records with directories are left |
| `WorktreeGc.Collector.Recheck` | crates/codegen/fast-worktree/src/api.rs:1885-1909 | clears a record exactly when the fresh row is there, the fresh scan is usable and the check holds on both, each in the world of its step |
| `WorktreeGc.Collector.AgeOne` | crates/codegen/fast-worktree/src/api.rs:1848-1925 | in any company: the changes made are exactly those of one removal when the first pass and, without force, the re-check take the record in the worlds they see, and none otherwise |
| `WorktreeGc.Collector.AgePass` | crates/codegen/fast-worktree/src/api.rs:1828-1925 | in any company: the changes are exactly those of going through the records listed, one after the other, and of giving up at the first scan that fails, be it the first of all or one before a removal; each is for age and allowed, so it stands directly behind the check of its own record; as for the whole pass otherwise |
| `WorktreeGc.Collector.Gc` | crates/codegen/fast-worktree/src/api.rs:1791-1928 | in any company: the world is what the moves of the others and the changes written down make of it, and each change is one that its reason allows: a removal for age is allowed only at the step behind its own check, not on an older one, and only after a first scan that did not fail; first come the changes for dead records, then exactly those of the age pass, all of them, forced or not, for records of kinds that expire and idle for too long; a dry run makes none; alone: all that is missing from disk lies in the directory of a record that was safe to remove, every missing row was taken on its own account, and no live record is lost while its directory is there; alone with nothing failing and no worktree inside another: both counts are those of a dry run, and exactly the dead, the vanished and the expired are gone |
| `GcChanges.RemovalMeans` | crates/codegen/fast-worktree/src/api.rs:1848-1925 | what stands behind an allowed removal: a kind that is neither skipped nor set to never expire, and a record whose creation and last use lie further back than the limit of the kind, even by force; without force the row read four steps before, the scan taken three steps before and the check made two steps before show no live creator, nobody inside and nothing protected inside, and the first scan of the pass had not failed either, and it too showed this |
| `GcChanges.OnlyIdleTaken` | crates/codegen/fast-worktree/src/api.rs:1848-1925 | so every change for age in a run is for a record of a kind that expires, idle for too long |
| `GcChanges.EffectExactly` | crates/codegen/fast-worktree/src/api.rs:612-625 | what each change does: a directory goes with all below it and every path that led there; rows go or are marked one by one; nothing else changes |
| `WorktreeGc.Collector.AgeAll` | crates/codegen/fast-worktree/src/api.rs:1848-1925 | in any company: the changes are exactly those of the records listed, one after the other, up to the first whose check before the removal finds no usable scan |
| `GcChanges.BlindEnds` | crates/codegen/fast-worktree/src/api.rs:1885-1896 | a scan that fails just before a removal ends the age pass: neither this record nor any behind it is touched |
| `GcChanges.BlindFromTheStart` | crates/codegen/fast-worktree/src/api.rs:1832-1843 | an unforced age pass whose first scan fails changes nothing |
| `GcChanges.LossExplained` | crates/codegen/fast-worktree/src/api.rs:1791-1928 | while nobody else moves, every missing path and row is due to a change that was allowed |
| `WorktreeGc.Collector.Remove` | crates/codegen/fast-worktree/src/api.rs:1910-1925 | the exact changes of a removal: none when it fails, the directory before the row, the row alone when the directory was gone |
| `GcChanges.ClearedPathSafe` | crates/codegen/fast-worktree/src/api.rs:1885-1925 | a cleared path has nobody and nothing protected inside when every place inside it is inside the path that the row names now |
| `GcChanges.RepointedRowClears` | crates/codegen/fast-worktree/src/api.rs:1885-1925 | where every path that resolves does so to itself, all scans that clear a row leave the listed path vacant if and only if the row names that path or one above it |
| `OrphanScan.Scanner.Visit` | crates/codegen/fast-worktree/src/api.rs:1298-1400 | one metadata file: nothing is removed but on the word of this file, when what it says is orphaned and contained in the tree as it is; after an error the file, its snapshot and its orphaned state are still there; without failures an orphan is gone: its metadata, the link to it, and its snapshot with all that is below it |
| `OrphanScan.OrphanedMeans` | crates/codegen/fast-worktree/src/api.rs:1265-1346 | a snapshot is orphaned if and only if nothing is mounted on its target, no link there points to it, from the root or from its directory, and that directory is there |
| `OrphanScan.ContainedMeans` | crates/codegen/fast-worktree/src/api.rs:1351-1352 | and contained if and only if it lies directly in the scanned directory and is safe to delete |
| `OrphanScan.Scanner.Scan` | crates/codegen/fast-worktree/src/api.rs:1279-1413 | over a whole scan every missing node is the reference named by, or lies in the contained snapshot named by, a metadata file that was there in a scanned directory and was orphaned in a tree of the scan; a parsed metadata file is missing only when its snapshot is, or when it lay inside a snapshot that is gone; without failures no orphan that could be reclaimed is left, unless the directory of its reference went during the scan |
| `CrashFormat.Parse` | crates/codegen/crash-handler/src/format.rs:49-112 | well-formed data and nothing else is read, as the crash whose numbers are encoded in it |
| `CrashFormat.RoundTrip` | crates/codegen/crash-handler/src/format.rs:49-163 | reading data that starts with a written crash of up to 64 frames gives all its fields and frames back, whatever follows |
| `CrashFormat.VersionSurvives` | crates/codegen/crash-handler/src/format.rs:72-76 | the version reads back unchanged if and only if it has at most 32 bytes, is UTF-8 and does not end in NUL |
| `Utf8Meaning.ByteLenMeans` | crates/codegen/chat-state/src/compaction_utils.rs:226-241 | the length by which texts are cut is that of their UTF-8 form |
| `Utf8Meaning.Utf8Exactly` | crates/codegen/crash-handler/src/format.rs:72-76 | what counts as UTF-8 is the encoding of some characters, and nothing else |
| `CrashFormat.ImageLayout` | crates/codegen/crash-handler/src/format.rs:126-163 | which byte of the file is what: magic, format version, signal, little-endian fields, version field, eight bytes a frame |
| `CrashFormat.WriteHeader` | crates/codegen/crash-handler/src/format.rs:126-153 | the first 64 bytes of the buffer are the header, the rest is unchanged |
| `CrashFormat.WriteFrame` | crates/codegen/crash-handler/src/format.rs:160-163 | eight little-endian bytes at the offset, the rest unchanged |
| `CrashHandler.WalkFramePointers` | crates/codegen/crash-handler/src/handler.rs:160-190 | the recorded addresses are those of a climbing chain of valid frames; the walk stops at the limit, at the end of the chain, or at a fault |
| `CrashHandler.WalksTheStack` | crates/codegen/crash-handler/src/handler.rs:160-190 | on a stack laid out in memory, each frame holding the address of the next and behind it the address it returns to, a chain is a front part of it, return addresses included, and one that ends is all of it |
| `CrashHandler.WriteCrashBlob` | crates/codegen/crash-handler/src/handler.rs:339-410 | after each write the file starts with a record of the crash; a fault ends it after the first; else the last record holds the whole chain or 64 frames |
| `CrashHandler.RecordsReadBack` | crates/codegen/crash-handler/src/handler.rs:339-410 | such a file parses, with all fields of that crash, the faulting address first and at most 64 frames |
| `SegmentNames.NameRoundTrip` | crates/codegen/chat-state/src/compaction_transcript.rs:81-97 | every 64-bit index comes back from its file name |
| `SegmentNames.NameReads` | crates/codegen/chat-state/src/compaction_transcript.rs:81-97 | the number stands in the name in decimal, with zeros in front up to three digits |
| `SegmentNames.ClassifySegment` | crates/codegen/chat-state/src/compaction_transcript.rs:120-141 | behind any prefix the path of a segment is told as that segment |
| `SegmentNames.ClassifyIndex` | crates/codegen/chat-state/src/compaction_transcript.rs:120-141 | and that of the index file as the index |
| `SegmentNames.ClassifyStore` | crates/codegen/chat-state/src/compaction_transcript.rs:120-129 | and the store itself, with any slashes behind, as the store |
| `SegmentNames.ClassifyOnly` | crates/codegen/chat-state/src/compaction_transcript.rs:120-141 | nothing else is told: a path told as the store ends in its name but for slashes, one told as a file of it in that name, a slash and the name of the index or of that segment |
| `SegmentRender.RenderSegment` | crates/codegen/chat-state/src/compaction_transcript.rs:478-506 | the longest prefix of whole turns that fits the budget, joined, and the notice counting exactly the others |
| `SegmentRender.DocumentMeans` | crates/codegen/chat-state/src/compaction_transcript.rs:496-506 | a document is the preamble, the rendered turns and, if some are omitted, the notice with their number |
| `SegmentRender.JoinSplits` | crates/codegen/chat-state/src/compaction_transcript.rs:497-497 | the turns stand in their order, a newline between each two |
| `SegmentRender.DocumentBytes` | crates/codegen/chat-state/src/compaction_transcript.rs:496-506 | the exact size, separators and notice included |
| `SegmentRender.SizeBound` | crates/codegen/chat-state/src/compaction_transcript.rs:480-506 | when the preamble leaves room, at most the cap less 55 bytes plus one for each turn, so within the cap up to 55 turns |
| `SegmentRender.OverrunExactly` | crates/codegen/chat-state/src/compaction_transcript.rs:480-506 | for every preamble and all turns the cap is exceeded if and only if separators and notice need more than what is held back for them (128 bytes, or what a longer preamble leaves of the cap) and what the turns leave of the budget |
| `SegmentRender.LongPreamble` | crates/codegen/chat-state/src/compaction_transcript.rs:478-506 | a preamble that leaves less than the 128 bytes: no turn is rendered, and the cap is exceeded if and only if preamble and notice are longer than it |
| `SegmentRender.ManyTurnsOverrun` | crates/codegen/chat-state/src/compaction_transcript.rs:480-506 | turns of any sizes that fill the budget overrun the cap if and only if there are more than 129 of them |
| `Usage.FoldClamps` | crates/codegen/chat-state/src/usage.rs:73-104 | saturating addition of clamped totals is clamped exact addition |
| `Usage.SumByField` | crates/codegen/chat-state/src/usage.rs:73-104 | each field of a sum is the sum of that field, and there is a cost if and only if some part has one |
| `Usage.OrderIrrelevant` | crates/codegen/chat-state/src/usage.rs:146-152 | the exact sum behind the totals does not depend on the order of the records |
| `Usage.OrderIrrelevantFor` | crates/codegen/chat-state/src/usage.rs:146-152 | nor does that of each model |
| `Usage.SplitAgrees` | crates/codegen/chat-state/src/usage.rs:106-152 | the grand total is the saturated sum of the per-model totals, which are saturated themselves |
| `Usage.LedgerSplits` | crates/codegen/chat-state/src/usage.rs:106-152 | this holds in every ledger of records without negative costs |
| `Usage.LedgersAgree` | crates/codegen/chat-state/src/usage.rs:106-152 | two such ledgers given the same records in any order hold the same totals and the same split |
| `Usage.NegativeCostsDependOnOrder` | crates/codegen/chat-state/src/usage.rs:99-104 | with negative costs the order matters |
| `Usage.FromCall` | crates/codegen/chat-state/src/usage.rs:46-63 | one call with its token counts and duration, its cost if reported and positive, and else a missing one |
| `Usage.UsageLedger.FoldEntry` | crates/codegen/chat-state/src/usage.rs:146-152 | keeps totals and split equal to the clamped exact sums of all records with non-negative costs |
| `Usage.UsageLedger.RecordMainLoopCall` | crates/codegen/chat-state/src/usage.rs:120-130 | one record and one round more; main-loop calls never exceed model calls |
| `Usage.UsageLedger.RecordSubagent` | crates/codegen/chat-state/src/usage.rs:133-140 | the records are added, no round, and incomplete is never taken back |
| `Usage.UsageLedger.MarkIncomplete` | crates/codegen/chat-state/src/usage.rs:142-144 | incomplete, and nothing else changed |

## Left out

- The chat-state actor, its handle and its persistence; the ACP gateway and message routing: they forward messages.
- Removal of tool calls, reasoning and images before summarising (`strip_tool_messages_for_conversation_item`, `strip_reasoning_blocks`, `strip_images`): single filters.
- The texts of prompts, preambles and reminders, and the reserved queries: parameters of the rebuilt history.
- Encrypted reasoning in the token estimate: an item's text stands for all its bytes.
- Symbol extraction, navigation, alias handling and the on-disk cache of the index: a file's symbols are one value, and file contents do not change while a run lasts.
- Exact kinds of coalesced entries: `Created`, `Modified` and `Renamed` entries have the same effect and are told apart only by `Insert`.
- The bound of the line reader's channel and a consumer that is dropped: the queue is unbounded.
- SQLite, btrfs, overlay mounts and process listing: a table, a set of directories and a scan. Removal inside a pass uses the same database as the pass.
- A directory removal that fails half-way leaves a partly deleted tree; in the model a removal that fails changes nothing.
- Order of records in a listing: the table is kept in listing order.
- Skip counters of garbage collection (`skipped_alive`, `remove_failed`): kept, not specified.
- Links are followed one level in the orphan scan, and the mount table is the one read at its start.
- Partial writes of the crash file, the Windows handler, registers and terminal restoration: each write takes effect as a whole.
- Rendering of single turns, turn statistics and keywords: a turn's block is a parameter.
- The 64-bit width of lengths, counts and positions where no cast or saturation depends on it.
