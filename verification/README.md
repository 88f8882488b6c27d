# Wework verification models

A Dafny model of six engines of the Wework platform, with proofs of what they promise. Verify
everything with `dafny verify dfyconfig.toml`.

**Chat history** (`ForkHistory`, `ForkDepth`, `HistoryWindow`, `HistoryPaging`, `HistoryMessages`, `HistoryLaws`,
`PlainHistory`, `PlainAnswers`, `ContextBudget`). A task may be forked from another task after one of its messages. Reading a
history climbs the chain of forks, collects every ancestor's messages up to the fork point, sorts
and selects them, optionally starts at the latest compaction checkpoint, applies a limit, and expands
the remaining turns into response messages. The store is a map from task ids to owner and optional
fork, and from task ids to subtask rows. Every loop of the source is a method proved equal to a
function; the laws are proved about the functions. The main result compares the flat collection with
an independent recursive meaning of a fork (`Meaning`).

**Log rotation** (`LogClock`, `LogRotation`, `LogHandler`, `LocalHours`, `LogHours`, `HandlersAtWork`,
`StepHours`, `OverlappingCalls`). Processes share a log file
and rotate it hourly. `LogRotation` is a state machine whose steps are the single system calls of any
number of processes, which start, write, roll over and die in any interleaving; safety is proved over
all runs. `LogHandler` has the handler as an object, and shows that one undisturbed `emit` of the
object is a run of the machine. `LogHours` says exactly when files keep to the hour they are named for,
over any calls, one after another, of any number of handlers that open, write, pause and close.
`StepHours` says it for calls that overlap, step by step over the runs of the machine.

**Knowledge selection** (`SelectedKnowledge`, `MergeReference`, `KnowledgeOverride`, `PlainKnowledge`,
over `OrderedSets`). References to knowledge bases are merged per base, and a turn's explicit selection
overrides the task's. The incremental merge is proved to be a homomorphism and equal to a
description that looks at all references to one base at once.

**Plugin build gate** (`PluginBuild`, `PosixPaths`, `PlainBuild`). An archive made by contributor code is judged by
a declaration read from the archive itself. Decoding JSON is an arbitrary function of the bytes.

**Guidance queue** (`GuidanceQueue`). Producers append and consumers pop atomically, while an expiry
reads and then deletes in two commands. The state machine lets any number of expiries be in flight.

**Configuration** (`Dotenv`, `DotenvGrammar`, `RedisUrl`, `RedisUrlGrammar`). Settings come from the process environment layered over a
dotenv file, whose missing entries are exported at startup; Redis settings come from a URL.

The modules named `Plain...` and `...Grammar` say what an operation answers in the terms of its input and
output alone: fields, statuses, modes, keys and texts are written out, and no function of the model that
computes them is named.

`Wrappers`, `JsonValues`, `Text` and `Sequences` are shared. Integers are unbounded except where the
source parses 64-bit or 16-bit numbers, which `Text.ParseI64` and `Text.ParseU16` do. `MAX_FORK_DEPTH` is
50, as in backend-rs/src/task_routing.rs:23.

## Where code and expectations part

- The Rust history stops at `MAX_FORK_DEPTH` tasks and answers with the part of the chain it has
  (backend-rs/src/chat_history.rs:192-236); the Python service raises an error for such a chain
  (backend/app/services/task_fork_history.py:147-148). The model follows the Rust code.
  `ForkDepth.DeepChainLosesMessage` is a chain whose answer lacks a message, and
  `ForkDepth.LineageIsMeaningIff` says exactly when the cut answer is still the whole history.
- Each ancestor is cut only by its direct child's fork point. A grandchild that forks off before the
  point where its parent forked off therefore sees messages of the grandparent that its parent's
  history, cut at the fork, does not hold. `ForkHistory.FlatIsMeaningForAllMessages` says when.
- The comment on `parse_expired_ids` calls a non-object item an error; the code skips it
  (backend-rs/src/chat_guidance.rs:89-107). An item that is not JSON fails the whole expiry, after the
  list has been deleted, and takes the other items with it (`GuidanceQueue.BrokenItemTakesOthers`).
- The rollover is a full hour of the offset in force when it is computed. Where clocks shift by half an
  hour it is not a full local hour (`LogClock.HalfHourShiftMissesTheHour`), and `%z` drops the seconds of
  an offset (`LogClock.SecondsOfOffsetAreLost`).
- Archive names bind one file for ever and no line is lost, but with several handlers an archive may
  hold lines of another hour than the one in its name. While calls do not overlap, it happens exactly when
  a due handler finds its archive made and goes on with a base file last written in an earlier hour
  (`LogHours.HoursKeptIff`, `HandlersAtWork.SecondHandlerMisfilesLines`). Calls that overlap may also
  straddle the end of an hour (`OverlappingCalls.StraddlingCallsMixHours`); for them
  `StepHours.RunHoursIff` has the exact condition, and `OverlappingCalls.AgreeingRunKeepsHours` what is
  enough: that processes which open the same file do so for the same hour.
- A name that occurs twice in a dotenv file reads by its first value and exports its last.
- Message ids need no assumption on the sign of subtask ids to be distinct.

## Model

| member | source | states |
|---|---|---|
| ForkHistory.ResolveLineage | backend-rs/src/chat_history.rs:180-236 | the loop over current task, inherited cutoff and seen set ends, and returns `Lineage` |
| ForkHistory.LineageHasOutcome | backend-rs/src/chat_history.rs:178-236 | every request ends in a declared outcome: not the owner's task, a complete or depth-bounded descent, a fork back into the chain, or a missing ancestor |
| ForkHistory.DescentsAgree | backend-rs/src/chat_history.rs:192-230 | the fork chain above a task is unique: of two chains that end in it, the shorter is the lower part of the longer |
| ForkHistory.OutcomeUnique | backend-rs/src/chat_history.rs:192-236 | the declared outcomes exclude one another: one chain and one result per request |
| ForkHistory.LineageExact | backend-rs/src/chat_history.rs:178-236 | a result is returned if and only if its outcome holds: ids distinct, at most 50, each node the source of the next with the next one's cutoff, the last the requested task without cutoff, the first unforked unless the bound was reached; a revisited task fails |
| PlainHistory.LineageIff | backend-rs/src/chat_history.rs:178-236 | the same for success and for a task of another user, with owner, forks, cutoffs and the bound of fifty written out |
| ForkHistory.CollectItems | backend-rs/src/chat_history.rs:249-270 | the nested loop collects each node's rows with message id up to its cutoff and below the requested bound, node by node in order |
| PlainHistory.CollectedIff | backend-rs/src/chat_history.rs:252-270 | collected are exactly the subtasks of the chain's tasks with a message id up to the task's cutoff and below the requested bound |
| ForkHistory.MeaningStable | backend-rs/src/chat_history.rs:180-236 | the recursive history of a fork does not depend on the depth it is unfolded with, once that reaches the root |
| ForkHistory.MeaningIsTight | backend-rs/src/chat_history.rs:249-270 | unfolding the recursive history of a fork cuts each ancestor's messages by all cutoffs below it |
| ForkHistory.TightVersusFlat | backend-rs/src/chat_history.rs:249-270 | the collection that cuts by the direct child only holds at least those messages, and the same ones exactly if no message passes its own cutoff but not a lower one |
| ForkHistory.FlatIsMeaningIff | backend-rs/src/chat_history.rs:180-270 | for a chain that reaches its root, the flat collection is the recursive history of the fork if and only if no message leaks |
| ForkHistory.FlatIsMeaningForAllMessages | backend-rs/src/chat_history.rs:180-270 | whatever the tasks contain, the two agree if and only if cutoffs never decrease from root to leaf |
| ForkHistory.LeakingMessages | backend-rs/src/chat_history.rs:249-270 | for every rooted chain whose cutoffs do decrease, messages for which the flat collection is not the recursive history |
| ForkHistory.DecreasingCutoffsLeak | backend-rs/src/chat_history.rs:180-270 | a store of three tasks whose lineage is resolved, has decreasing cutoffs, and whose history differs from its meaning |
| ForkDepth.LineageIsLowerPart | backend-rs/src/chat_history.rs:192-236 | a resolved lineage is the lower part of the whole chain, of all its tasks or of 50 if there are more |
| ForkDepth.CutMeaningIff | backend-rs/src/chat_history.rs:180-270 | for every place to cut a rooted chain, the lower part collected flat is the recursive history if and only if no message above the cut is within all cutoffs below it and nothing leaks below |
| ForkDepth.LineageIsMeaningIff | backend-rs/src/chat_history.rs:180-270 | the same for a resolved lineage of any depth, cut at the bound or not |
| ForkDepth.DeepChainLosesMessage | backend-rs/src/chat_history.rs:192-236 | a chain of 51 tasks, none of whose cutoffs decrease, that is answered without a message its history holds |
| HistoryWindow.SortLaw | backend-rs/src/chat_history.rs:272-278 | sorting by message id, creation time and subtask id gives an ordered permutation |
| HistoryWindow.OrderedPermutationUnique | backend-rs/src/chat_history.rs:272-278 | with distinct subtask ids there is only one such permutation |
| HistoryWindow.SortFilter | backend-rs/src/chat_history.rs:272-283 | selecting rows before or after sorting gives the same sequence |
| HistoryWindow.EligibleMembers | backend-rs/src/chat_history.rs:249-283 | the rows a window chooses from are exactly the collected rows that are completed, cancelled or failed |
| PlainHistory.AnsweredRowsIff | backend-rs/src/chat_history.rs:249-283 | without limit and compaction a request is resolved to exactly the rows sent in time that are COMPLETED, CANCELLED or FAILED |
| PlainHistory.AnsweredRowsInOrder | backend-rs/src/chat_history.rs:272-295 | every resolved window lists such rows by message id, then creation time, an absent one first, then subtask id |
| PlainHistory.CheckpointIff | backend-rs/src/chat_history.rs:109-128 | a checkpoint is exactly a completed assistant turn whose chain has an entry with `additional_kwargs.summary_compacted` true |
| HistoryWindow.EligibleBefore | backend-rs/src/chat_history.rs:259-283 | bounding the message id before collecting or after sorting and selecting is the same |
| HistoryWindow.LatestCheckpoint | backend-rs/src/chat_history.rs:109-137 | the index found is that of a checkpoint with none after it; none is found only if there is none |
| HistoryWindow.ScopeToLatestCheckpoint | backend-rs/src/chat_history.rs:130-143 | the scan keeps the rows from the latest checkpoint on, or all rows without one |
| HistoryWindow.LimitLaw | backend-rs/src/chat_history.rs:145-176 | for positive limits exactly min(limit, n) rows, else all; the most recent ones, or the checkpoint and then the most recent ones; always an order-preserving selection |
| HistoryWindow.ResolveHistorySubtasks | backend-rs/src/chat_history.rs:238-296 | the whole resolution, including its errors, is `Resolve` |
| HistoryWindow.ResolvedWindow | backend-rs/src/chat_history.rs:238-296 | the window is an order-preserving selection of the sorted eligible rows, of the stated length and place, for every limit and bound |
| HistoryPaging.PageIsResolved | backend-rs/src/chat_history.rs:252-295 | a page of the backward walk is what a request with that limit and bound is answered with |
| HistoryPaging.WalkComplete | backend-rs/src/chat_history.rs:145-176 | walking back with `before_message_id` set to the first id of the last page ends, and its pages joined are all eligible rows in order, if message ids are distinct |
| HistoryPaging.WalkCompleteIff | backend-rs/src/chat_history.rs:252-295 | for every positive limit by itself, the walk visits everything exactly once if and only if no page begins with the message id of the row before it |
| HistoryPaging.WalkVisitsAllIff | backend-rs/src/chat_history.rs:252-295 | the walk visits everything exactly once for every positive limit if and only if no two eligible rows share a message id |
| HistoryMessages.MessageIdInjective | backend-rs/src/chat_history.rs:606-609 | an id `row` or `row-index` determines the row and the index |
| Text.DigitsValue | backend-rs/src/chat_history.rs:608 | a number in an id is written with the digits of its value, without leading zeros |
| HistoryMessages.BuildAssistantMessages | backend-rs/src/chat_history.rs:512-655 | the expansion of one turn, by status and chain, with the loop that skips empty entries |
| HistoryMessages.AttachToLastAssistant | backend-rs/src/chat_history.rs:622-634 | the backward scan gives truthy skills to the last assistant message and changes nothing else |
| HistoryMessages.KeptLaw | backend-rs/src/chat_history.rs:592-605 | the kept chain places are exactly those without an empty assistant entry, in order |
| HistoryMessages.ExpansionLaw | backend-rs/src/chat_history.rs:586-635 | a chain turn answers with the chain in order minus exactly the empty assistant entries; a message carries skills if and only if there are any and it is the last assistant one |
| PlainAnswers.ChainAnswer | backend-rs/src/chat_history.rs:586-635 | every field of every message of a chain turn in terms of the stored entry; entries left out are the assistant ones that say nothing; the last assistant message has the skills |
| PlainAnswers.OtherAnswers | backend-rs/src/chat_history.rs:560-654 | every field of the answer to a user turn, a failed turn and a turn without a chain |
| HistoryMessages.CancelledLaw | backend-rs/src/chat_history.rs:528-558 | a cancelled turn is answered if and only if it is an assistant's and left visible text: that text up to its last visible character, closed by the interruption note |
| PlainAnswers.CancelledAnswer | backend-rs/src/chat_history.rs:528-558 | every field of that answer, with the note written out |
| HistoryMessages.SessionIdRoundTrip | backend-rs/src/chat_history.rs:84-101 | `task-<id>` and `subtask-<id>` are read back for every 64-bit id |
| HistoryMessages.SessionIdIff | backend-rs/src/chat_history.rs:84-101 | accepted are exactly the two kinds, a dash and a 64-bit decimal number |
| Text.ParseI64Iff | backend-rs/src/chat_history.rs:97-99 | such a number is exactly an optional sign and digits, of their positional value |
| HistoryMessages.TaskSession | backend-rs/src/chat_history.rs:931-941 | every 64-bit task id reaches that task's history through its session id, and the same id as a subtask session is refused |
| HistoryMessages.GetChatHistory | backend-rs/src/chat_history.rs:931-980 | the request parses its session id, refuses malformed and subtask sessions, and answers with the messages of all rows of the window or with the first error |
| PlainAnswers.AnswerWindow | backend-rs/src/chat_history.rs:943-974 | a task request fails for an unknown task, with the error of its lineage, or if and only if some row of its window has no answer; the window is the one its bound, limit and compaction flag ask for |
| PlainAnswers.AnswerRowByRow | backend-rs/src/chat_history.rs:960-974 | the response is the answers of the window's rows, one row after the other, all of each and nothing else |
| PlainAnswers.AnswerIdsAscend | backend-rs/src/chat_history.rs:960-974 | of two messages the first belongs to an earlier row, or to an earlier entry of the same row's chain |
| HistoryLaws.MarkedComesFromCheckpoint | backend-rs/src/chat_history.rs:502-510 | a message marked as summary comes from a marked entry, and from a turn that checkpoint detection recognises if the turn has one of the two roles |
| HistoryLaws.CheckpointKeepsMarks | backend-rs/src/chat_history.rs:586-621 | no marked entry of a checkpoint turn is skipped by the expansion |
| HistoryLaws.WindowHoldsLatestCheckpoint | backend-rs/src/chat_history.rs:130-176 | for every limit the scoped window starts with the latest checkpoint and holds no other |
| HistoryLaws.CompactionSurvives | backend-rs/src/chat_history.rs:111-176 | with an eligible checkpoint, for every limit the response carries summary messages, and they are exactly the marked entries of the latest checkpoint turn |
| HistoryLaws.CompactionExact | backend-rs/src/chat_history.rs:111-176 | whatever the roles, the latest checkpoint's marks survive for every limit, and there are no others if and only if the window holds no completed turn of a third role with a marked entry |
| HistoryLaws.OtherRolesLeakMarkers | backend-rs/migrations/schema.json:338 | such a turn; it shows what `CompactionSurvives` needs the two roles for, which the table's ENUM guarantees |
| HistoryLaws.RowMessageIds | backend-rs/src/chat_history.rs:414-478 | the messages of one row have distinct ids made from the row's id |
| HistoryLaws.ResponseIds | backend-rs/src/chat_history.rs:960-974 | rows with distinct ids answer with distinct message ids |
| HistoryLaws.HistoryRowsUnique | backend-rs/src/chat_history.rs:238-296 | no row stands twice in a window |
| HistoryLaws.HistoryIdsDistinct | backend-rs/src/chat_history.rs:931-980 | over a whole response no two messages share an id, if subtask ids are primary keys |
| ContextBudget.TruncationExact | backend-rs/src/attachment_block.rs:76-96 | for every marker, cut text has exactly the allowed number of characters, keeps a disjoint beginning and end around the marker when that fits and the beginning otherwise; cutting again changes nothing |
| ContextBudget.InjectionExact | backend-rs/src/attachment_block.rs:17-18 | with the marker in use, of 81 characters: where head, marker and tail stand for every limit |
| ContextBudget.BlocksLaw | backend-rs/src/chat_history.rs:811-845 | the blocks are those of the unrestricted contexts with text, in order, each with its heading and text written out |
| ContextBudget.FillKnowledge | backend-rs/src/chat_history.rs:811-862 | the budget loop takes the longest run of whole blocks that fits and cuts the next one to the rest if that exceeds 100 characters |
| ContextBudget.BudgetLaw | backend-rs/src/chat_history.rs:811-862 | at most the space plus the 17-character note; only the last part can be cut; the others are whole blocks in order |
| ContextBudget.BudgetUnique | backend-rs/src/chat_history.rs:811-862 | the stated budget rule determines the parts |
| ContextBudget.FillContext | backend-rs/src/chat_history.rs:801-862 | attachment lengths are summed, and knowledge text fills what the configured maximum leaves |
| ContextBudget.ContextTextLaw | backend-rs/src/chat_history.rs:801-862 | contexts, attachments and maximum determine the knowledge text, and both together never exceed the larger of the attachments alone and the maximum plus 17 |
| LogClock.RolloverIsNextHour | shared/logger.py:81-90 | the next rollover is the first later full hour of the offset in force, so strictly later and at most an hour away |
| LogClock.RolloverOnLocalHourIff | shared/logger.py:81-90 | it is a full local hour when it comes if and only if the offset changes by whole hours in between |
| LogClock.HalfHourShiftMissesTheHour | shared/logger.py:81-90 | a zone and time where it is not |
| LogClock.StampDetermines | shared/logger.py:167 | on full local hours an archive suffix fixes the instant up to the dropped seconds of the offset, and exactly for whole-minute offsets |
| LogClock.StampNamesHour | shared/logger.py:109-114 | a suffix names the local day, hour and offset that the zone's seconds west of UTC give, and only one does |
| LogRotation.ArchiveNamesHour | shared/logger.py:108-114 | an archive is named for the local hour that ended with the rollover time |
| LogClock.RepeatedHourStampsDiffer | shared/logger.py:167 | an hour repeated in autumn gets two suffixes |
| LogClock.SecondsOfOffsetAreLost | shared/logger.py:167 | two instants with offsets of odd seconds that share a suffix |
| LogRotation.StepKeeps | shared/logger.py:92-123 | every system call of every process keeps the invariant, never unbinds or rebinds an archive, and never takes a line from a file |
| LogRotation.RunKeeps | shared/logger.py:92-123 | the same over all runs of any number of processes in any interleaving |
| LogRotation.RenameNeverOverwrites | shared/logger.py:112-117 | in every reachable state the target of a pending rename is unbound and its source exists |
| LogRotation.NoLineLost | shared/logger.py:92-123 | after every run emitted lines and lines in named files correspond one to one, each file in order of emission |
| LogRotation.ArchivesNeverRebound | shared/logger.py:92-123 | an archive stays bound to one file, which only grows |
| LogRotation.OnlyTheLockBlocks | shared/logger.py:96-101 | a process that does not wait for a held lock always has a next step |
| LogRotation.LockIsReleased | shared/logger.py:96-123 | from every reachable state and under every interleaving the lock is free at some point before its holder has made seven steps of its own |
| LogRotation.WithoutLockLinesAreLost | shared/logger.py:92-101 | a run that ignores the lock and loses a line |
| LogHandler.CatchUp | shared/logger.py:120-122 | the catch-up loop gives the first later time on the hourly grid |
| LogHandler.HourlyRotatingFileHandler.constructor | shared/logger.py:161-167 | opening binds the base name if needed and sets the first rollover from the file's time |
| LogHandler.HourlyRotatingFileHandler.DoRolloverLocked | shared/logger.py:103-123 | the base file is put away unless its archive exists, the base is reopened, and the next rollover is later than now, with no round of the catch-up loop |
| LogHandler.HourlyRotatingFileHandler.Emit | shared/logger.py:92-123 | rolls over when due and then writes the line to the current base or stream |
| LogHandler.EmitAloneIsRun | shared/logger.py:92-123 | one undisturbed emit is a run of the protocol in which only the caller moves |
| LocalHours.HourLater | shared/logger.py:81-90 | where offsets shift by whole hours, local hours lie on one grid |
| LogHours.CallKeepsHours | shared/logger.py:92-123 | for calls that do not overlap: a call that does not misplace its line keeps every file to its hour, whoever else is open |
| LogHours.MisplacedMixes | shared/logger.py:112-118 | for calls that do not overlap: a call that rolls over, finds its archive made, and goes on with a base file last written in an earlier hour mixes two hours in one file |
| LogHours.HoursKeptIff | shared/logger.py:92-123 | from any directory in order, over any calls that do not overlap of any number of handlers that open and close: in the end every archive holds only lines of the hour in its name and the base file lines of one hour, if and only if no call was of that kind |
| HandlersAtWork.PunctualKeepsHours | shared/logger.py:92-123 | any number of handlers whose calls do not overlap keep the hours if each writes again before the hour after its rollover time is over |
| HandlersAtWork.SingleHandlerKeepsHours | shared/logger.py:81-123 | a single handler keeps them over every sequence of calls, pauses and restarts, on any directory in order |
| HandlersAtWork.SecondHandlerMisfilesLines | shared/logger.py:112-118 | five calls of two handlers on an empty directory that leave a late line in an older archive |
| StepHours.StepHoursIff | shared/logger.py:92-123 | after each system call of each process the files keep to their hours if and only if they did before and the call neither wrote a line into a file named for, or with lines of, another hour, nor renamed the base file to another hour than that of its lines |
| StepHours.RunHoursIff | shared/logger.py:92-123 | the same over all runs, however calls overlap, for every zone and all clock readings |
| OverlappingCalls.StepStaysOrderly | shared/logger.py:81-123 | while starting and arming processes agree on the hour of their file, every step keeps rollover times, files, lines and archive names on the same hours |
| OverlappingCalls.AgreeingRunKeepsHours | shared/logger.py:81-123 | where offsets are whole minutes and shift by whole hours: over all runs with a clock that does not run backwards in which they agree, however calls overlap, every file keeps to its hour |
| OverlappingCalls.StraddlingCallsMixHours | shared/logger.py:103-123 | a run of two processes in which no archive is found made and the base file gets lines of two hours, because one opened it just before the hour and armed just after |
| SelectedKnowledge.CollectResources | shared/selected_knowledge.py:103-115 | the index-keeping loop keeps the first resource of each scope, in order |
| SelectedKnowledge.MergeRefs | shared/selected_knowledge.py:67-96 | the loop over the insertion-ordered dictionary is `Merge` |
| SelectedKnowledge.CombineAssociative | shared/selected_knowledge.py:75-95 | joining references to one base is associative, down to order and metadata, with the whole base absorbing |
| SelectedKnowledge.MergeHomomorphism | shared/selected_knowledge.py:67-96 | merging two lists at once or each on its own and then the results is the same; merging is idempotent |
| SelectedKnowledge.MergeMeaning | shared/selected_knowledge.py:67-115 | one entry per base; the whole base if and only if some reference to it is, else exactly the union of scopes |
| SelectedKnowledge.MergeOrderIrrelevant | shared/selected_knowledge.py:67-115 | what is selected does not depend on the order of the input |
| PlainKnowledge.MergedBases | shared/selected_knowledge.py:40-115 | merged references differ in provider or base id and cover exactly the given ones; each is a whole base if and only if some reference is, and otherwise selects what any of them selects by type and id, with their topics, each once |
| MergeReference.JointStep | shared/selected_knowledge.py:79-95 | joining one more reference is what the whole group with it amounts to |
| MergeReference.MergeDescribes | shared/selected_knowledge.py:67-96 | the merge lists bases by first occurrence, each as its first whole-base reference, or with the first name, all resources and topics once, and the first summary and capabilities there are |
| MergeReference.DescriptionUnique | shared/selected_knowledge.py:67-96 | only one list fits that description |
| KnowledgeOverride.OverlayMeaning | shared/selected_knowledge.py:44-64 | the explicit scope replaces the task's, metadata falls back to the task's, topics are explicit first and then the task's, once each |
| KnowledgeOverride.ResolveSelectedKnowledgeContext | shared/selected_knowledge.py:18-37 | the loop with its index dictionary is `Resolve` |
| KnowledgeOverride.OverrideLaw | shared/selected_knowledge.py:18-64 | keys are unique: the task's in order, untouched unless selected, then the new explicit ones in order; every explicit base has exactly the explicit scope; evidence is required if and only if something was selected |
| PlainKnowledge.ResolvedBases | shared/selected_knowledge.py:18-64 | resolved references differ in provider or base id and cover exactly both inputs; explicitly selected bases have the explicit scope, all others are the task's |
| KnowledgeOverride.ResolveAgainIff | shared/selected_knowledge.py:18-64 | resolving the result again changes nothing if and only if no merged explicit reference to a base outside the task repeats a topic |
| KnowledgeOverride.ResolveAgain | shared/selected_knowledge.py:18-64 | in particular if no explicit reference repeats a topic |
| PosixPaths.RelativeIff | shared/plugin_build.py:21-27 | accepted are exactly the paths without backslash made of ordinary names, and the single dot |
| PosixPaths.RelativeText | shared/plugin_build.py:21-27 | the same on the text: no backslash, and no piece between slashes that is empty, a dot or two dots |
| PluginBuild.ReadSource | shared/plugin_build.py:88-109 | the source loop with its size and count limits is `Source` |
| PluginBuild.SourceLaw | shared/plugin_build.py:88-109 | a source tree is readable if and only if everything outside the ignored names is a directory or a bounded regular file, within the limits on number and size, and yields precisely these files with bytes and mode |
| PluginBuild.ArchiveLaw | shared/plugin_build.py:112-131 | an archive is readable if and only if it is a bounded regular file whose members are plain files with distinct relative names within the limits, and yields precisely its members with bytes and mode |
| PluginBuild.ArchiveFiles | shared/plugin_build.py:112-131 | the archive loop is `ArchiveTree` |
| PlainBuild.DeclarationIff | shared/plugin_build.py:30-69 | a tree declares a build exactly through a decodable file of at most 16384 bytes with the three keys, version 1, a bundled Python entrypoint and 1 to 16 disjoint unprotected outputs |
| PluginBuild.RunBuild | shared/plugin_build.py:134-201 | the build, case by case, is `Build` |
| PluginBuild.SameBytesSameDeclaration | shared/plugin_build.py:30-69 | a declaration with the same bytes declares the same wherever its entrypoint exists |
| PluginBuild.GateIff | shared/plugin_build.py:193-198 | the gate passes exactly the archives that keep every reviewed file, add only files at or under declared outputs and fill every output, although it reads the declaration from the archive |
| PluginBuild.BuildSucceedsIff | shared/plugin_build.py:134-201 | a build publishes an archive if and only if the source declares outputs, has nothing checked in there, and the readable archive is faithful |
| PlainBuild.PublishedIff | shared/plugin_build.py:134-201 | the same between entries and archive members: every reviewed file is a member with the same bytes and execute bit, every other member is at or under a declared output, and every output is filled; without a declaration nothing is built |
| PluginBuild.OneOutputEach | shared/plugin_build.py:61-68 | outputs are prefix-free, so a generated file belongs to exactly one |
| PluginBuild.PublishedArchive | shared/plugin_build.py:134-201 | a published archive has the reviewed declaration byte for byte, and is the disjoint union of the reviewed files and generated files |
| GuidanceQueue.QueueKeyInjective | backend-rs/src/chat_guidance.rs:28-33 | different turns never share a list |
| GuidanceQueue.QueueKeyText | backend-rs/src/chat_guidance.rs:28-33 | the name of the list |
| GuidanceQueue.ParseExpiredIds | backend-rs/src/chat_guidance.rs:86-110 | the loop collects the truthy ids in order, skips items without one, and fails on an undecodable item |
| GuidanceQueue.ExpiredIdsFails | backend-rs/src/chat_guidance.rs:97-101 | an expiry fails if and only if some item is not JSON |
| GuidanceQueue.IdIff | backend-rs/src/chat_guidance.rs:102-133 | which text stands for a stored id, by kind of JSON value |
| GuidanceQueue.WellFormedReported | backend-rs/src/chat_guidance.rs:102-107 | items with a non-empty text id are all reported, in order, each by its own id |
| GuidanceQueue.NewItemWellFormed | backend/app/services/chat/guidance_queue.py:71-79 | what a producer stores is always well formed, with the id it was given if that is not empty |
| GuidanceQueue.RedisList.Enqueue | backend/app/services/chat/guidance_queue.py:60-84 | a producer appends a well-formed item |
| GuidanceQueue.RedisList.Consume | backend-rs/src/chat_guidance_consume.rs:83-101 | pops the oldest item and answers with it; one that cannot be decoded or announced is gone all the same |
| GuidanceQueue.RedisList.Expire | backend-rs/src/chat_guidance.rs:58-84 | undisturbed, empties the list and answers for what it held, or fails after deleting |
| GuidanceQueue.RunKeeps | backend-rs/src/chat_guidance.rs:71-83 | the invariant over every interleaving of enqueue, pop, drain read and drain delete, with any number of drains in flight |
| GuidanceQueue.PopsAreFifo | backend-rs/src/chat_guidance_consume.rs:83-90 | pops come in the order of enqueuing, so nothing is popped twice |
| GuidanceQueue.OneFateEach | backend-rs/src/chat_guidance.rs:71-83 | every enqueued item is queued, popped or removed by exactly one drain, and only one of these |
| GuidanceQueue.AnswerExact | backend-rs/src/chat_guidance.rs:71-110 | in every reachable state a drain's answer is the ids of the items it read that have one, in order, and fails if and only if one of them is not JSON |
| GuidanceQueue.ReportedIff | backend-rs/src/chat_guidance.rs:71-110 | an item is reported if and only if it was read, has an id, and nothing read with it spoils the answer |
| GuidanceQueue.DrainWindow | backend-rs/src/chat_guidance.rs:71-110 | a drain removes an item unreported if and only if it was enqueued between the two commands, has no id, or was read with one that is not JSON; what it reports without removing was popped or removed by another drain in between |
| GuidanceQueue.UndisturbedDrain | backend-rs/src/chat_guidance.rs:71-110 | a drain with nothing in between reports exactly what it removes if and only if all of that has an id |
| GuidanceQueue.UndisturbedPartition | backend-rs/src/chat_guidance.rs:71-110 | then an item is at most one of queued, popped and reported, and always one of them if and only if everything removed has an id |
| GuidanceQueue.WellFormedDrains | backend/app/services/chat/guidance_queue.py:60-80 | with items as producers write them the three partition what was enqueued, and each answer lists the ids of what was removed, in order |
| GuidanceQueue.WindowAnomalies | backend-rs/src/chat_guidance.rs:71-83 | for every item with an id, runs in which it vanishes unreported, and in which it is popped and reported as expired |
| GuidanceQueue.BrokenItemTakesOthers | backend-rs/src/chat_guidance.rs:71-101 | an undisturbed drain that fails after deleting, with which an item that has an id vanishes |
| RedisUrl.RoundTripIff | backend-rs/src/config.rs:397-435 | parsing the canonical URL gives the endpoint back if and only if its host is not empty and has no `/` or `@`, and its password is not empty and has no `/` |
| RedisUrlGrammar.ParseIff | backend-rs/src/config.rs:397-435 | an endpoint is read exactly from URLs of the scheme, an optional user part, a non-empty host, an optional port, 6379 by default, and an optional database, 0 by default |
| Text.ParseU16Iff | backend-rs/src/config.rs:417 | a port is exactly digits with an optional plus, of a value up to 65535 |
| Dotenv.ProcessEnv.InitEnv | backend-rs/src/config.rs:185-209 | the export loop sets exactly the missing entries, and panics if and only if one of them cannot be set |
| Dotenv.ExportedLookup | backend-rs/src/config.rs:170-209 | exactly the unset variables the file defines change, to the last value it gives |
| DotenvGrammar.ReadingLaw | backend-rs/src/config.rs:162-239 | a setting is the process variable if that has a visible character, else the file's first entry; an optional one is trimmed, and off if the variable is blank |
| DotenvGrammar.ExportLaw | backend-rs/src/config.rs:170-209 | the export gives variables without a visible character the file's last value and leaves all others alone |
| Dotenv.TransparentIff | backend-rs/src/config.rs:211-226 | a setting reads the same before and after the export if and only if it is set, its first and last values agree, or its last value is blank |
| Dotenv.TransparentForDistinctNames | backend-rs/src/config.rs:144-226 | with distinct names every setting reads the same |
| Dotenv.DuplicateNameBreaksTransparency | backend-rs/src/config.rs:162-177 | a repeated name that reads differently after the export |
| Dotenv.OptionalTransparentIff | backend-rs/src/config.rs:228-239 | the exact condition for settings that a blank variable disables |
| Dotenv.ExportIdempotent | backend-rs/src/config.rs:185-209 | exporting twice is exporting once, repeated names included |
| Dotenv.ExportKeepsSetVariables | backend-rs/src/config.rs:179-209 | no variable with a value is touched |
| Dotenv.LineRoundTrip | backend-rs/src/config.rs:68-80 | a written line is read back, whatever quotes and padding its value holds |
| DotenvGrammar.LineIff | backend-rs/src/config.rs:68-160 | a line is an entry exactly if it is a name, an equals sign and a value, with optional space around and one optional pair of quotes, no comment and no empty value |
| DotenvGrammar.EntriesInOrder | backend-rs/src/config.rs:142-160 | a file's entries are those of its lines that are one, in order |
| Text.IsSpaceIff | backend-rs/src/config.rs:69-80 | the code points that count as white space |
| DotenvGrammar.LinesLaw | backend-rs/src/config.rs:142-160 | the lines are the pieces between line feeds |
| Text.TrimIff | backend-rs/src/config.rs:69-80 | trimming takes exactly the white space at both ends |
| Dotenv.FileRoundTrip | backend-rs/src/config.rs:142-160 | a written file is read back entry by entry |

## Left out

- The database: SQL, table sharding, store failures and the row limits of queries. The store is a map.
- The content of user turns: attachment, image and video headers, file-name cleaning, prompt blocks and the order in which context blocks are joined. It is a parameter that may fail. File names and prompt blocks would only add easy members.
- Other endpoints: administration lists, role checks, playback, and the HTTP form of errors.
- Timestamps of messages are seconds; their text form is not modelled.
- HistoryWindow.ResolveHistorySubtasks: sorting is the function `Sort`, not the library's algorithm; it is stable, as the library's is.
- HistoryPaging.WalkComplete: the store does not change during the walk.
- LogHandler.HourlyRotatingFileHandler.constructor: opening the file and reading its time are one step, and the zone is a parameter.
- LogRotation.Apply: a write is one step and never fails; lines are not formatted. A killed process leaves no partial line. Log levels, queue listeners, formatters, request ids and the process-wide handler variable are not modelled.
- LogHours.HoursKeptIff: calls do not overlap (`StepHours` has those that do); offsets are whole minutes and shift by whole hours; the hour of a line, and of the file's modification time, is that of the last clock reading before it is written, which is the end of the rollover when there was one.
- StepHours.RunHoursIff: the hour of a line is that of the process's last clock reading before it is written; modification times are arbitrary.
- PluginBuild.SourceLaw: no two files of the tree have the same path.
- PlainBuild.PublishedIff: no two files of the tree have the same path.
- PluginBuild.RunBuild: the child process is what it leaves behind; its environment, the staged copy, the temporary directory and ZIP bytes are not modelled, and the candidate does not change between the check and the copy. `extract_archive` is left out.
- GuidanceQueue.RedisList.Expire: Redis failures and the list's time to live are not modelled.
- GuidanceQueue.RedisList.Consume: decoding the typed item and publishing the event are parameters; the text of the event is not modelled.
- GuidanceQueue.ParseExpiredIds: the text of a float, an array or an object is a parameter.
- RedisUrl.Parse: the replica settings that are merged in afterwards are left out, as are MySQL URLs.
- Dotenv.ProcessEnv.InitEnv: which file is read (`--env-file`) and environment variables that are not Unicode are left out; the variables after a panic are not described.
