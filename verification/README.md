# Agent dashboard: verified models of its protocols

A Dafny 4.11 project that models the parts of the dashboard whose promises are about whole runs rather
than single branches, and proves those promises for all inputs and all interleavings. One module stands
beside one source component:

| module | component | what it is about |
|---|---|---|
| `JsonText`, `QuoteWindow`, `QueryProjection` | `scripts/mcp-tools-library.js` | sizes of JSON text, the excerpt window, the fair allocation of a byte budget |
| `CheckpointList` | `scripts/mcp-tools-checkpoints.js` | the newest rows that fit a byte cap |
| `FlushReplies`, `CloseFlush` | `src/main/close-flush.ts` | request and reply correlation, and the dialog loop that never closes silently |
| `ConfigRepair`, `RuntimeRepair` | `src/main/claude-config-repair.ts` | the repair planner, and the repair step racing other steps and a writer |
| `Continuation`, `PlanPaging` | `src/main/api-server.ts`, with `src/main/database.ts` and `src/main/supervisor/index.ts` | the handoff of supervisor agents, and the cursor walk over plans |
| `KernelClient` | `src/main/jupyter-kernel-client.ts` | a shared object initialised asynchronously and disposed at any moment |
| `PathNormalize`, `Osc8` | `src/main/file-activity-normalize.ts` | canonical paths, and paths in terminal hyperlinks |
| `DetachedWindows` | `src/main/detached-windows.ts` | one writer per file, and why a window closes |
| `PollingWatcher` | `src/main/fs-watcher.ts` | one polling loop, and what its events tell |
| `BadgeInvalidation` | `src/main/badge-invalidation.ts` | debounced broadcasts |
| `Relay` | `scripts/groupthink-v1.js` | waiting for a turn, and relaying between two agents |

`Prelude` and `Strings` hold the shared vocabulary. Values are datatypes and functions. What the source
changes in place is a class, and each of its methods is proved equal to one step of a specification
function; the theorems are about all runs of that function. Lemmas named `...Exactly` say what a step does
from what can be observed - buttons, tables, samples, time stamps - without the functions the step is made
of. Outside parties (renderers, users, timers, writers of the same file, HTTP callers, the database) are
events in any order. `dafny verify dfyconfig.toml` checks the whole project.

## Where the code does not keep a promise

Each of these is a lemma with a concrete run or family of runs, beside the exact condition under which
the promise holds.

* The checkpoint list measures its result with the flag `true` and calls that the longer boolean; it is the
  shorter one. The result is one byte over the cap exactly when all rows together measure the cap to the
  byte (`CheckpointList.BuildListCheckpointsResult`), and for every head that leaves room there is such a
  row (`CheckpointList.CapIsExceeded`).
* The compare-before-write read of the runtime repair is said to close the window between check and
  write. It narrows it (`RuntimeRepair.CompareBeforeWriteCanLoseAWrite`): in every run a repair loses a
  write if and only if one falls between its last look and the replacement, and what it replaces is then the
  last such write, else the text it looked at
  (`RuntimeRepair.WritesAreLostExactlyBehindTheLastLook`).
* One continuation attempt can be relaunched twice: the gates see the attempt as committed until the first
  relaunch commits (`Continuation.DoublePostRelaunchesTwice`). It happens if and only if a request is
  admitted while one for the same attempt is still queued (`Continuation.TwiceExactlyWhenOverlapping`).
* A relaunch reads its agent before it awaits the request body. A reading two generations old sets the
  agent's generation back (`Continuation.StaleReadLowersGeneration`); it drops exactly in that case.
* "Overwrite anyway" widens to a whole window if a renderer names one of its tabs `window:...`
  (`CloseFlush.ForceCanHitWholeWindow`); with real tab ids it never does.
* Path canonicalisation is called idempotent. It is, exactly when the path does not end in a segment with
  white space at its end (`PathNormalize.IdempotentExactly`, `PathNormalize.SpaceBeforeDotBreaksIdempotence`).
* A newer close question of a detached window is said to supersede an older one. It does not
  (`DetachedWindows.OlderRequestStillCounts`): a question is open exactly until it is answered or its window
  is gone, and an answer counts exactly while its question is open
  (`DetachedWindows.PendingUntilAnsweredOrGone`, `DetachedWindows.AnswerCountsExactly`).
* Plan rows whose ids tie can be lost behind a cursor (`PlanPaging.TiedRowIsLost`); a finished walk is
  complete exactly when no page ends between two tied rows.
* A file that is replaced by a directory of the same name is not reported by the polling watcher
  (`PollingWatcher.KeptPathReported`).

## Model

| member | source | states |
|---|---|---|
| JsonText.SizesOfNext | scripts/mcp-tools-library.js:40-42 | taking one more code point of a window costs its own UTF-8 length and its own JSON length, and nothing else |
| JsonText.Utf8Exactly | scripts/mcp-tools-library.js:40-42 | the length counted is that of the UTF-8 encoding, which reads back; a lone surrogate reads back as the replacement character |
| JsonText.EscapedExactly | scripts/mcp-tools-library.js:119 | the length counted is that of the code point as it is written in a JSON string, which reads back |
| JsonText.LiteralSize | scripts/mcp-tools-library.js:119 | the JSON size counted is the size of the text written between the quotes |
| JsonText.UnitsOfCodePoints | scripts/mcp-tools-library.js:126 | splitting a string into code points loses nothing: spelling them again gives the same code units |
| JsonText.CodePointsSplit | scripts/mcp-tools-library.js:68-72 | cutting a string anywhere but inside a surrogate pair cuts its code points too |
| JsonText.WellFormedHasNoLoneSurrogate | scripts/mcp-tools-library.js:68-72 | well-formed text has no lone surrogate among its code points |
| QuoteWindow.RawStart | scripts/mcp-tools-library.js:93-104 | the start fits the content and, when the keyword match fits the target, the target-sized window holds it |
| QuoteWindow.WindowShape | scripts/mcp-tools-library.js:93-105 | the window lies in the content, has target to target+2 units, and holds the whole keyword match whenever it fits |
| QuoteWindow.SplitExactly | scripts/mcp-tools-library.js:68-72 | the end never splits a surrogate pair; the start does exactly behind a high and before a second low surrogate |
| QuoteWindow.WindowKeepsCodePoints | scripts/mcp-tools-library.js:74-107 | in well-formed text the window is a run of whole code points |
| QuoteWindow.QuoteTextLength | scripts/mcp-tools-library.js:76-106 | short content is shown whole; anything longer is cut to the target and at most eight units more, ellipses included |
| QuoteWindow.RoundedIsCentred | scripts/mcp-tools-library.js:88-93 | the rounded and clamped start is the one nearest the middle of the match, the later one on a tie |
| QuoteWindow.LiesSomewhere | scripts/mcp-tools-library.js:80-91 | a match with both offsets lies somewhere in the content, wherever they point |
| QuoteWindow.QuoteTextShows | scripts/mcp-tools-library.js:74-107 | content that fits is shown whole; otherwise the run of target size best centred on the keyword match, or else on the similar passage, whole at its ends, with dots exactly where content is left out; a keyword match that fits is in it |
| QueryProjection.Fairest | scripts/mcp-tools-library.js:130-134 | picks the waiting quote with the fewest bytes, the earliest on a tie, and finds one exactly when one is waiting |
| QueryProjection.UsedAfterTake | scripts/mcp-tools-library.js:135-144 | handing a quote its next code point raises the used size by that code point's JSON length |
| QueryProjection.TakingKeeps | scripts/mcp-tools-library.js:143-144 | handing out a code point that fits keeps the cap, the four-byte fairness and the cause of every block |
| QueryProjection.TurningAwayKeeps | scripts/mcp-tools-library.js:138-142 | turning a quote away because its code point does not fit keeps the same |
| QueryProjection.EveryStepIsFairAndFits | scripts/mcp-tools-library.js:129-145 | at every moment the body fits, no quote is more than four bytes ahead of a waiting one, and a quote is blocked only because its next code point does not fit |
| QueryProjection.EveryStepCutsFairly | scripts/mcp-tools-library.js:129-145 | at every moment no quote is further ahead of a blocked one than four bytes and the room that was left, into which its next code point did not fit |
| QueryProjection.StepDoesWork | scripts/mcp-tools-library.js:129-145 | each round takes exactly one from code points left plus quotes unblocked, so the loop ends |
| QueryProjection.KeepFittingMetadata | scripts/mcp-tools-library.js:117-124 | keeps the longest rank prefix whose metadata fits, and refuses exactly when the empty frame does not |
| QueryProjection.Round | scripts/mcp-tools-library.js:130-144 | one trip round the loop on its arrays is one step of the specified allocation |
| QueryProjection.HandOut | scripts/mcp-tools-library.js:126-145 | the loop ends within its work measure with the finished allocation |
| QueryProjection.DoneIsFairShare | scripts/mcp-tools-library.js:129-145 | at the end each quote is a prefix of its window, none could take its next code point, and none is more than nine bytes ahead of one that was cut |
| QueryProjection.CapQueryProjection | scripts/mcp-tools-library.js:109-150 | the output is within the cap, made of the longest fitting prefix and a fair share of what may be shown of each excerpt: its content, or the run of it centred on its keyword match, or else on its similar passage; it is refused only for the frame, never by the last size test |
| QueryProjection.ResponseSizeIs | scripts/mcp-tools-library.js:110-149 | the size that is counted is the size of the text of the answer: frame, objects with their quotes, commas and markers |
| QueryProjection.PlainTextIsSharedEvenly | scripts/mcp-tools-library.js:129-145 | for one-byte text no quote is ever more than one character longer than one that was cut |
| CheckpointList.ResultSizeIs | scripts/mcp-tools-checkpoints.js:159-171 | the measured size in closed form; the flag adds four bytes when set and five when not |
| CheckpointList.DecimalReads | scripts/mcp-tools-checkpoints.js:164-165 | numbers are printed in decimal digits without a leading zero |
| CheckpointList.RowAdds | scripts/mcp-tools-checkpoints.js:173-177 | one more row makes the measured result strictly larger |
| CheckpointList.MeasuredReversed | scripts/mcp-tools-checkpoints.js:154-177 | the measured size does not depend on the order of the rows |
| CheckpointList.LongerIsLarger | scripts/mcp-tools-checkpoints.js:173-177 | a longer newest suffix measures more, so stopping at the first row that does not fit is right |
| CheckpointList.SelectNewest | scripts/mcp-tools-checkpoints.js:173-177 | the loop collects the longest newest suffix that fits, newest first |
| CheckpointList.BuildListCheckpointsResult | scripts/mcp-tools-checkpoints.js:148-188 | rows ascend, flag and counts are right, and the real size exceeds the cap exactly in the two stated cases, by one byte if the empty result fits |
| CheckpointList.UnabridgedIsOneByteLarger | scripts/mcp-tools-checkpoints.js:156-163 | the untruncated result is one byte larger than it was measured, against the comment |
| CheckpointList.CapIsExceeded | scripts/mcp-tools-checkpoints.js:156-183 | for every head that leaves room there is a row that measures the cap to the byte, is kept, and gives a result one byte over it |
| CheckpointList.ShortHeadsHaveRoom | scripts/mcp-tools-checkpoints.js:180-187 | every head of up to ten thousand characters leaves room |
| FlushReplies.StepKeepsConsistent | src/main/close-flush.ts:63-106 | every request is either pending or settled, never both |
| FlushReplies.EachRequestSettlesOnce | src/main/close-flush.ts:66-106 | over every run each request settles at most once, by one of reply, timeout and failed send |
| FlushReplies.LateAnswersChangeNothing | src/main/close-flush.ts:67-72 | a reply or timer for a settled or unknown request changes nothing |
| FlushReplies.SettledByTheFirst | src/main/close-flush.ts:66-106 | over every run a request that could not be sent is settled so at once, and any other is outstanding exactly until the first reply to it or its timer, which settles it |
| FlushReplies.ReplyTable.FlushTarget | src/main/close-flush.ts:82-106 | sending registers a fresh request, or settles it at once when the send throws |
| FlushReplies.ReplyTable.HandleFlushReply | src/main/close-flush.ts:67-72 | a reply resolves its pending request with its rows and nothing else |
| FlushReplies.ReplyTable.OnTimer | src/main/close-flush.ts:91-93 | the timer settles its request only if it is still pending |
| CloseFlush.MergeResults | src/main/close-flush.ts:130-141 | the merging loop is the specified merge: a real row removes the fabricated one, then each row overwrites its tab |
| CloseFlush.Round | src/main/close-flush.ts:121-142 | a round merges the settlement of every window it asked and leaves the others |
| CloseFlush.Dialog | src/main/close-flush.ts:149-212 | one trip round the dialog loop is one step of the specified run |
| CloseFlush.RunCloseFlush | src/main/close-flush.ts:115-214 | the close proceeds exactly if no conflict, error or timeout is left on the table or the discarding button was pressed, and is aborted exactly if a dialog was cancelled; the requests sent are those of the specified run |
| CloseFlush.FirstRound | src/main/close-flush.ts:145-146 | the first round asks every living window, and no other, for everything, and each absorbs what came of it |
| CloseFlush.ButtonsExactly | src/main/close-flush.ts:158-211 | with a conflict on the table button 0 retries, 1 forces, 2 discards, without one 0 retries and 1 discards, any other number cancels; a retry asks exactly the living windows with an error or timeout, a force exactly those with a conflict, for exactly these tabs, and the table and the history take in exactly what comes of it |
| CloseFlush.VerdictExactly | src/main/close-flush.ts:150-177 | over every run: discarded or cancelled exactly if a dialog was answered with such a button, and clean exactly if no failure is left |
| CloseFlush.MergeAbsorbs | src/main/close-flush.ts:128-141 | a silent or unreachable window gets a row of its own; a reply sets each tab to what it says last of it, and takes that row away exactly if it names a real tab |
| CloseFlush.RunIsAccounted | src/main/close-flush.ts:115-214 | every failure ever reported was answered later or is still on the table |
| CloseFlush.NoSilentClose | src/main/close-flush.ts:110-214 | a close without Discard leaves no conflict, error or timeout without a later saved or pristine report of that tab, a window gone, or a real reply over a fabricated row |
| CloseFlush.WholeWindowExactly | src/main/close-flush.ts:184-211 | a planned request names its wanted tabs, or the whole window exactly when one of them is fabricated |
| CloseFlush.RunNoFabricatedConflict | src/main/close-flush.ts:74-80 | with real tab ids a fabricated row is never a conflict |
| CloseFlush.ForceIsTargeted | src/main/close-flush.ts:180-211 | Overwrite anyway forces an explicit non-empty list of exactly the tabs whose latest outcome is a conflict |
| CloseFlush.ForceCanHitWholeWindow | src/main/close-flush.ts:203-210 | without real tab ids it can force a whole window |
| ConfigRepair.LastPassingBrace | src/main/claude-config-repair.ts:77-86 | the backward scan finds the longest prefix that parses and ends at one of the last 200 closing braces, or there is none |
| ConfigRepair.PlanTruncation | src/main/claude-config-repair.ts:70-87 | with a position the prefix before it, without one the scan's |
| ConfigRepair.ParsesUpToExactly | src/main/claude-config-repair.ts:79-80 | the scan tests the text up to and with the brace, without white space around it |
| ConfigRepair.KeyAtExactly | src/main/claude-config-repair.ts:96 | a key is found at a place exactly if a plain quoted name, white space and a colon stand there |
| ConfigRepair.NamedAtExactly | src/main/claude-config-repair.ts:108 | a given name is found at a place exactly if it is spelt there, with a colon behind it |
| ConfigRepair.KeysAreTheScan | src/main/claude-config-repair.ts:96-102 | the candidate keys are, in order, all the matches that start at or before the bound; every other place that matches lies inside one of them |
| ConfigRepair.TailIsTheLastMatch | src/main/claude-config-repair.ts:108-114 | the tail starts at the last match of the key in the backup, and there is none exactly if nothing matches |
| ConfigRepair.WorksExactly | src/main/claude-config-repair.ts:108-117 | a trial works exactly if the backup has the key and the prefix with the backup from its last match of the key parses |
| ConfigRepair.PairAt | src/main/claude-config-repair.ts:104-107 | the trials in order: keys last to first, for each the backups newest to oldest |
| ConfigRepair.TryBackups | src/main/claude-config-repair.ts:106-118 | the inner loop finds the first backup whose merge parses, within the trials left |
| ConfigRepair.PlanGraft | src/main/claude-config-repair.ts:103-119 | the outer loop finds the first working pair among the first 50, keys last to first |
| ConfigRepair.ValidBackups | src/main/claude-config-repair.ts:89 | exactly the backups that parse, the newest of them first |
| ConfigRepair.ValidInOrder | src/main/claude-config-repair.ts:89 | of two lists of backups the valid ones of the newer list come first, so the order is kept |
| ConfigRepair.ValidOfOne | src/main/claude-config-repair.ts:89 | a backup alone is valid exactly if it parses |
| ConfigRepair.RepairsParse | src/main/claude-config-repair.ts:41-59 | every repaired content parses and is canonical |
| ConfigRepair.RepairClaudeJsonContent | src/main/claude-config-repair.ts:64-128 | where each repair comes from, each one only if those before it are impossible, and unrepairable exactly if nothing truncates and no backup parses |
| RuntimeRepair.ContinueCases | src/main/claude-config-repair.ts:336-375 | after a read the step finishes, waits with what its next stage relies on, or repairs on two equal invalid reads |
| RuntimeRepair.ApplyKeeps | src/main/claude-config-repair.ts:362-375 | a repair replaces invalid text that was read unchanged across a gate interval and once more, by text that parses |
| RuntimeRepair.CallKeeps | src/main/claude-config-repair.ts:332-334 | the guard lets a step in only when none is past it and the cooldown has passed |
| RuntimeRepair.FinishKeeps | src/main/claude-config-repair.ts:376-378 | every exit releases the flag |
| RuntimeRepair.CallExactly | src/main/claude-config-repair.ts:332-336 | a call reads first exactly if no step is past the guard and the cooldown has passed, and else ends for the one that holds |
| RuntimeRepair.ResumeExactly | src/main/claude-config-repair.ts:336-375 | behind a look a step ends for exactly one cause, waits a gate interval at the first invalid text and once more if it changed, or takes the last look with what the planner made of a text that stood still |
| RuntimeRepair.EveryOutcomeHasItsCause | src/main/claude-config-repair.ts:327-379 | over every run each outcome of a step has its cause in what the step had seen when it ended |
| RuntimeRepair.EveryInterleavingIsSafe | src/main/claude-config-repair.ts:327-379 | under every interleaving one step at most is past the guard, every repair is sound, and repairs are a cooldown apart |
| RuntimeRepair.StableFileIsRepaired | src/main/claude-config-repair.ts:336-375 | a corrupt file that nobody touches is repaired by one pass, if the planner has a repair |
| RuntimeRepair.WritesAreLostExactlyBehindTheLastLook | src/main/claude-config-repair.ts:362-375 | every repair of every run loses exactly the writes between its last look and its replacement: it is raced if and only if there is one, and replaces the last of them, else the text it looked at |
| RuntimeRepair.RepairGoesAhead | src/main/claude-config-repair.ts:366-373 | once the last look found the text unchanged, no write in between stops the repair |
| RuntimeRepair.SampleWasTaken | src/main/claude-config-repair.ts:366 | what a step holds was read by a look of its own, and since then only the writer changed the file |
| RuntimeRepair.CompareBeforeWriteCanLoseAWrite | src/main/claude-config-repair.ts:362-372 | a run in which a valid file written behind the last look is overwritten |
| RuntimeRepair.Watcher.Begin | src/main/claude-config-repair.ts:332-336 | the guards as code are the specified step |
| RuntimeRepair.Watcher.Proceed | src/main/claude-config-repair.ts:336-378 | the code between two awaits is the specified continuation |
| RuntimeRepair.Watcher.Return | src/main/claude-config-repair.ts:336-378 | returning from a read keeps the invariant |
| Continuation.OpenKeeps | src/main/api-server.ts:2863-2883 | minting an attempt keeps one open attempt per agent |
| Continuation.NoteKeeps | src/main/api-server.ts:2889-2934 | writing a note closes its attempt as committed |
| Continuation.DeferKeeps | src/main/api-server.ts:2938-2994 | deferring closes the attempt and keeps at most three deferrals per generation |
| Continuation.AdmitKeeps | src/main/api-server.ts:3029-3183 | admitting a relaunch keeps every invariant |
| Continuation.CommitKeeps | src/main/database.ts:5399-5434 | committing a relaunch closes its attempt for good and keeps every invariant |
| Continuation.EveryRunKeeps | src/main/api-server.ts:2863-3183 | over every run: one open attempt per agent, no note for it, bounded deferrals, and no second relaunch but an overlapping one |
| Continuation.OpenedExactly | src/main/api-server.ts:2863-2883 | an attempt is minted if and only if the agent exists and has none open; it is of the next generation |
| Continuation.NotedExactly | src/main/api-server.ts:2889-2934 | a note is accepted if and only if it is of the agent's open attempt, which it closes |
| Continuation.DeferredExactly | src/main/api-server.ts:2938-2994 | a deferral is accepted if and only if it is of the agent's open attempt and fewer than three rows record one of its generation; it closes the attempt and adds a row with the time |
| Continuation.AbortedExactly | src/main/database.ts:5325-5330 | closing an attempt as aborted changes its status, whatever it was, and nothing else |
| Continuation.AdmittedExactly | src/main/api-server.ts:3029-3181 | from the tables alone: a relaunch is admitted if and only if its attempt is the agent's and of the next generation, and is committed with a later note, or open without one and three attempts of the cycle are aborted or one begun after every relaunched one and every deferral is half an hour old |
| Continuation.DeferralRestartsClock | src/main/database.ts:5126-5142 | over every run, an escape after an accepted deferral, without three aborts, needs an attempt of that generation that was begun after the deferral and is half an hour old |
| Continuation.EveryTicketWasAuthorized | src/main/api-server.ts:3029-3183 | every queued or committed relaunch was authorized when admitted, in exactly one way |
| Continuation.EveryRelaunchWasAuthorized | src/main/api-server.ts:3024-3183 | each relaunch had a committed attempt of the next generation with a later note, or an open one without a note and no budget left, not both |
| Continuation.WithoutOverlapsOneRelaunchEach | src/main/api-server.ts:3046-3070 | without overlapping requests an attempt is relaunched at most once |
| Continuation.DrainLogs | src/main/supervisor/index.ts:8421-8427 | a queue that runs without failure is logged ticket by ticket, in order |
| Continuation.TwiceExactlyWhenOverlapping | src/main/api-server.ts:3029-3183 | from every run state without repeats, admitting one more request and running the queue relaunches an attempt twice if and only if one for the same attempt was still queued |
| Continuation.OverlapRelaunchesTwice | src/main/supervisor/index.ts:8421-8445 | two queued relaunches of one attempt both run |
| Continuation.DoublePostRelaunchesTwice | src/main/api-server.ts:3046-3181 | with an empty queue, posting the relaunch of a committed attempt twice before the first commits relaunches it twice |
| Continuation.RunsHeadFirst | src/main/supervisor/index.ts:8421-8427 | the lifecycle lock runs relaunches in the order they were admitted, and each sets the generation its attempt owns |
| Continuation.FreshReadsNeverDrop | src/main/api-server.ts:3029-3060 | with fresh readings of the agent its generation never drops, over any run |
| Continuation.DropsExactlyWhenStale | src/main/database.ts:5399-5434 | a commit lowers the generation exactly when its reading is two or more generations old |
| Continuation.StaleReadLowersGeneration | src/main/api-server.ts:3029-3181 | a run in which a stale relaunch sets the generation back |
| Continuation.NewGenerationHasFullBudget | src/main/database.ts:5105-5143 | a relaunch that raises the generation starts a new escape budget |
| Continuation.HandOverRaises | src/main/api-server.ts:2863-3183 | an undisturbed handoff raises the generation by one and leaves no open attempt |
| Continuation.Routes.FindOpen | src/main/api-server.ts:2870 | the open attempt of the agent, exactly if there is one |
| Continuation.Routes.PostAttempt | src/main/api-server.ts:2863-2883 | mints the successor generation, exactly if the agent exists and has no open attempt |
| Continuation.Routes.PostBrick | src/main/api-server.ts:2889-2934 | succeeds exactly with an acceptable note and an open attempt, and commits that one |
| Continuation.Routes.PostDeferral | src/main/api-server.ts:2938-2994 | succeeds exactly with an acceptable reason and an open attempt whose generation has deferrals left; closes that attempt and records one deferral, or changes nothing |
| Continuation.Routes.PostRelaunch | src/main/api-server.ts:3029-3183 | admits exactly the authorized requests, which are those of AdmittedExactly |
| Continuation.Routes.RunNext | src/main/supervisor/index.ts:8421-8427 | the next queued relaunch commits as the specified step |
| PlanPaging.SortKeeps | src/main/api-server.ts:4180 | the sort arranges the same rows in ascending order of id |
| PlanPaging.CutPage | src/main/api-server.ts:4185-4206 | the page is the longest that fits, from its limit down to one row; an error exactly if none does |
| PlanPaging.ListPlans | src/main/api-server.ts:4180-4207 | the route answers so for the sorted rows behind the cursor |
| PlanPaging.AnswersAreUnique | src/main/api-server.ts:4185-4206 | a request has one answer |
| PlanPaging.AnAnswerExists | src/main/api-server.ts:4185-4206 | every request has an answer, so a walk can always be carried on |
| PlanPaging.ResumeIsSuffix | src/main/api-server.ts:4182-4184 | resuming behind a row skips exactly the rows that tie with it |
| PlanPaging.WalkAccounts | src/main/api-server.ts:4180-4207 | a walk takes at most one request a row, returns a prefix while its cuts are clean, and leaves rows out if they are not |
| PlanPaging.EveryPlanOnce | src/main/api-server.ts:4180-4207 | without ties a walk returns rows in order without gap or repeat and, when it finishes, every row exactly once, whatever limits, caps and listing orders |
| PlanPaging.CompleteExactlyWhenCutsAreClean | src/main/api-server.ts:4180-4207 | with ties a finished walk is complete if and only if no page ends between two tied rows |
| PlanPaging.TiedRowIsLost | src/main/api-server.ts:4182-4184 | a walk that finishes without the second of two tied rows |
| PlanPaging.SmallRowsNeverFail | src/main/api-server.ts:4201-4206 | the error needs a single row or an empty page that is over the cap |
| KernelClient.ServerAnswersKeeps | src/main/jupyter-kernel-client.ts:77-89 | creating a manager, or failing to, keeps every invariant |
| KernelClient.ManagerReadyKeeps | src/main/jupyter-kernel-client.ts:90-101 | a manager that becomes ready is installed if its generation is current and disposed otherwise |
| KernelClient.EveryInterleaving | src/main/jupyter-kernel-client.ts:72-118 | one running initialisation of the current generation, a current installed manager, and every manager in exactly one place: initialising, installed, disposed once |
| KernelClient.StaleManagerIsNeverInstalled | src/main/jupyter-kernel-client.ts:96-99 | a manager begun before a disposal is never installed after it |
| KernelClient.NothingLeaks | src/main/jupyter-kernel-client.ts:112-118 | once nothing is initialising, a disposal leaves every manager disposed exactly once |
| KernelClient.InstalledStays | src/main/jupyter-kernel-client.ts:72-74 | within a generation an installed manager stays and no initialisation begins |
| KernelClient.UndisturbedInstalls | src/main/jupyter-kernel-client.ts:72-110 | an initialisation without a disposal or failure ends with the manager it created installed |
| KernelClient.AnsweredInstalls | src/main/jupyter-kernel-client.ts:77-101 | an undisturbed initialisation whose server and manager both answer has installed its manager |
| KernelClient.FailureSettles | src/main/jupyter-kernel-client.ts:91-94 | a failure settles its initialisation, installs nothing, and disposes the manager that was waited for |
| KernelClient.CleanUpExactly | src/main/jupyter-kernel-client.ts:107-109 | clearing up leaves nobody waiting for that initialisation and touches nothing else |
| KernelClient.FailedIsTriedAgain | src/main/jupyter-kernel-client.ts:72-109 | after any run, once every initialisation of the current generation is over and no manager is installed, the next call begins a new one, and undisturbed and answered it installs its manager |
| KernelClient.InstalledWasReady | src/main/jupyter-kernel-client.ts:90-101 | over every run the installed manager was reported ready by its own initialisation after the last disposal |
| KernelClient.Module.EnsureManager | src/main/jupyter-kernel-client.ts:72-106 | a caller gets the installed manager or an initialisation of the current generation |
| KernelClient.Module.OnServer | src/main/jupyter-kernel-client.ts:78-89 | the code behind the server's answer is the specified step |
| KernelClient.Module.OnReady | src/main/jupyter-kernel-client.ts:90-101 | the code behind the ready promise is the specified step |
| KernelClient.Module.Finally | src/main/jupyter-kernel-client.ts:107-109 | the clean-up is the specified step, which clears the promise exactly if it is its own |
| KernelClient.Module.DisposeKernelClient | src/main/jupyter-kernel-client.ts:112-118 | disposal as code is the specified step |
| Strings.TrimKeepsRoot | src/main/file-activity-normalize.ts:218 | trimming leaves a first part without white space at its ends, and changes nothing exactly if the last character is not white space |
| Strings.SpaceExactly | src/main/file-activity-normalize.ts:218 | white space is that of the source language |
| PathNormalize.NormalKeepsPlace | src/main/file-activity-normalize.ts:154-164 | normalising keeps where the path leads and its separator at the end, and leaves no empty, `.` or `..` segment |
| PathNormalize.WalkOn | src/main/file-activity-normalize.ts:154-164 | where a segment leads: nowhere if empty or a dot, to the parent for two dots, with the root its own parent, and else into the directory of that name |
| PathNormalize.NormalIsCanonical | src/main/file-activity-normalize.ts:154-164 | two paths have one normal form exactly when they lead to one place and end alike |
| PathNormalize.NormalIsNoLonger | src/main/file-activity-normalize.ts:154-164 | normalising never lengthens |
| PathNormalize.ReadOfSpell | src/main/file-activity-normalize.ts:241-246 | a spelt reading is a rooted path that reads back as itself |
| PathNormalize.BranchesExactly | src/main/file-activity-normalize.ts:218-246 | which trimmed values are empty, absolute or on a drive, and how the canonical path of each begins; the others are for other branches |
| PathNormalize.CanonicalizeSpells | src/main/file-activity-normalize.ts:216-246 | canonicalising spells what the path says: drive in upper case, place, separator at the end |
| PathNormalize.OnePathPerPlace | src/main/file-activity-normalize.ts:216-246 | two rooted values get one path exactly when they say the same |
| PathNormalize.IdempotentExactly | src/main/file-activity-normalize.ts:206-246 | canonicalising twice is canonicalising once if and only if the path does not end in a segment with white space at its end |
| PathNormalize.IdempotentOnPlainSegments | src/main/file-activity-normalize.ts:206-246 | it is idempotent on paths none of whose segments ends in white space |
| PathNormalize.SpaceBeforeDotBreaksIdempotence | src/main/file-activity-normalize.ts:213-241 | a family of paths on which the promised idempotence fails |
| PathNormalize.ForInstance | src/main/file-activity-normalize.ts:213-241 | one of them: `/a /.` |
| Osc8.ScanOnBehind | src/main/file-activity-normalize.ts:57-58 | markers cannot overlap, so the scan may go on behind the one it found |
| Osc8.CountMarkers | src/main/file-activity-normalize.ts:57-58 | the loop counts all markers |
| Osc8.InspectLink | src/main/file-activity-normalize.ts:64-81 | the checks on parameters and closer are the specified ones |
| Osc8.ClosingExactly | src/main/file-activity-normalize.ts:73 | behind the closer there may be a BEL, an ESC, a backslash or an ESC with a backslash, then white space, and nothing else |
| Osc8.FileAtExactly | src/main/file-activity-normalize.ts:118 | the scheme is `file:` in letters of either case |
| Osc8.DegradedUriExactly | src/main/file-activity-normalize.ts:108-109 | the earliest `file:` with everything behind it up to the first white space, backslash or control; empty exactly if there is none |
| Osc8.LocateRegion | src/main/file-activity-normalize.ts:61-81 | with two markers the checks give the region of the one link, or nothing |
| Osc8.FindTerminator | src/main/file-activity-normalize.ts:83-95 | the earliest BEL or ESC, none exactly if there is neither, and two characters long exactly for ESC with a backslash |
| Osc8.UnwrapOsc8 | src/main/file-activity-normalize.ts:47-121 | text without a marker is unchanged, any number but two is ambiguous, and the scanner is the specified recovery |
| Osc8.RegionOfFrame | src/main/file-activity-normalize.ts:61-81 | the region of a proper frame is found, with the ESC of the closer or without |
| Osc8.UnwrapOfWrap | src/main/file-activity-normalize.ts:26-41 | any intact link behind any text without a marker gives back its display text without white space around it, or its file address if that is blank |
| Osc8.UnwrapOfDegraded | src/main/file-activity-normalize.ts:31-39 | a link whose escape characters were eaten gives back its file address, whatever residue and text follow it |
| Osc8.RecoveredFromOneLink | src/main/file-activity-normalize.ts:36-45 | whatever is recovered from a string with a marker is a non-blank, trimmed, contiguous part of the one framed link in it |
| DetachedWindows.DetachKeeps | src/main/detached-windows.ts:294-353 | opening a window keeps owners and live windows in one-to-one agreement |
| DetachedWindows.ClosedKeeps | src/main/detached-windows.ts:383-389 | forgetting a closed window keeps it |
| DetachedWindows.OneWriter | src/main/detached-windows.ts:170-179 | in every reachable state a detached file is writable from its window's contents only, and no two windows show one file |
| DetachedWindows.FreeFilesAreWritable | src/main/detached-windows.ts:176-179 | a file no window shows is writable by everyone |
| DetachedWindows.NoWindowClosesByItself | src/main/detached-windows.ts:192-221 | a window that is gone was answered save or discard on its own pending request, lost its renderer, or was forced shut |
| DetachedWindows.ExcuseLetsGo | src/main/detached-windows.ts:192-221 | an answer, a lost renderer or the shutdown lets its window go at once |
| DetachedWindows.ExcusedStaysCleared | src/main/detached-windows.ts:364-384 | over every run a window that once had an excuse stays cleared as long as it is there |
| DetachedWindows.ExcusedIsNotAsked | src/main/detached-windows.ts:367-374 | so no later close attempt of it is held up |
| DetachedWindows.PendingWasAsked | src/main/detached-windows.ts:367-374 | every pending request was put to the window it names by a held-up close attempt |
| DetachedWindows.StaleAndCancelledReplies | src/main/detached-windows.ts:192-199 | a stale answer changes nothing, a cancelled one only retires its request, and every answer does |
| DetachedWindows.AnsweredWindowGoes | src/main/detached-windows.ts:192-204 | a save or discard answer to a pending request lets its window go |
| DetachedWindows.GoingWindowFreesItsFile | src/main/detached-windows.ts:367-389 | a window that may go does at its next close attempt: its file is free, its questions are gone, the other windows stay |
| DetachedWindows.PendingUntilAnsweredOrGone | src/main/detached-windows.ts:367-389 | in every run a request that was put is pending if and only if no answer to it has come and its window is still there |
| DetachedWindows.AnswerCountsExactly | src/main/detached-windows.ts:186-204 | an answer, to the newest question or an older one, has an effect exactly if that question is unanswered and its window still there |
| DetachedWindows.OlderRequestStillCounts | src/main/detached-windows.ts:186-204 | a run in which an older question is answered after a newer one |
| DetachedWindows.ShutdownIsNeverHeldUp | src/main/detached-windows.ts:206-221 | after the shutdown began no close attempt is held up |
| DetachedWindows.Windows.CreateDetachedWindow | src/main/detached-windows.ts:294-353 | focuses the window that shows the file exactly if there is one, and registers a new one otherwise |
| DetachedWindows.Windows.OnClose | src/main/detached-windows.ts:367-374 | holds a close up exactly when it is neither allowed nor forced and the contents are alive |
| DetachedWindows.Windows.OnRendererGone | src/main/detached-windows.ts:378-381 | a lost renderer lets its window close |
| DetachedWindows.Windows.ForgetRequests | src/main/detached-windows.ts:385 | the loop drops the pending requests of the window and no others |
| DetachedWindows.Windows.OnClosed | src/main/detached-windows.ts:383-389 | the handler is the specified step |
| DetachedWindows.Windows.HandleDetachedCloseReply | src/main/detached-windows.ts:192-204 | an answer is the specified step |
| DetachedWindows.Windows.ForceCloseAllDetached | src/main/detached-windows.ts:212-216 | every detached window starts closing |
| DetachedWindows.Windows.MayWrite | src/main/detached-windows.ts:176-179 | allowed exactly if every window that shows the file is the sender's own |
| PollingWatcher.ArrivalsReplay | src/main/fs-watcher.ts:171-179 | replaying the first pass adds exactly the new paths |
| PollingWatcher.DeparturesReplay | src/main/fs-watcher.ts:180-185 | replaying the second pass removes exactly the missing ones |
| PollingWatcher.DiffReplay | src/main/fs-watcher.ts:171-186 | replaying the difference turns the paths of one listing into those of the next, every event making sense when it comes |
| PollingWatcher.KeptPathReported | src/main/fs-watcher.ts:173-178 | a path in both listings is reported, as changed, exactly if it is a file whose size or time differs |
| PollingWatcher.NewAndGoneReported | src/main/fs-watcher.ts:172-185 | a path in one listing is reported as added, with kind and size, or as removed |
| PollingWatcher.PassesInOrder | src/main/fs-watcher.ts:171-185 | each pass reports in the order of the listing it goes through |
| PollingWatcher.RemovalsLast | src/main/fs-watcher.ts:171-185 | whatever was added or changed is reported before whatever was removed |
| PollingWatcher.LoadKeeps | src/main/fs-watcher.ts:145-151 | the loaded map has every listed path once |
| PollingWatcher.LoadKeepsLast | src/main/fs-watcher.ts:145-151 | with what the listing says last of it |
| PollingWatcher.PutInPlace | src/main/fs-watcher.ts:145-151 | a path that is there keeps its place, a new one goes to the end |
| PollingWatcher.OneLoopAlways | src/main/fs-watcher.ts:127-202 | while open either a timer is pending or a listing is in flight, never both; so a poll never meets one in flight |
| PollingWatcher.PollingGoesOn | src/main/fs-watcher.ts:138-194 | over every run a timer that fires begins a listing, and the end of a listing sets the next timer exactly if the watcher is open |
| PollingWatcher.ReplayGivesLatest | src/main/fs-watcher.ts:153-194 | nothing is reported before the first listing; from then on replaying all events gives exactly the paths of the latest one, for any mix of listings and failures |
| PollingWatcher.SilentOnceClosed | src/main/fs-watcher.ts:198-201 | after closing nothing is reported and no timer is set |
| PollingWatcher.BackoffSchedule | src/main/fs-watcher.ts:133-136 | over every run the delay behind a poll is two, two, five, ten and then thirty seconds after no, one, two, three and more failures in a row |
| PollingWatcher.Watcher.Poll | src/main/fs-watcher.ts:153-161 | the first half of a poll is the specified step, and always begins a listing |
| PollingWatcher.Watcher.EmitArrivals | src/main/fs-watcher.ts:171-179 | the loop reports the specified arrivals in order |
| PollingWatcher.Watcher.EmitDepartures | src/main/fs-watcher.ts:180-185 | the loop reports the specified departures in order |
| PollingWatcher.Watcher.OnListed | src/main/fs-watcher.ts:161-193 | the second half of a poll is the specified step |
| PollingWatcher.Watcher.OnListingFailed | src/main/fs-watcher.ts:187-193 | a failure is counted and the next poll scheduled |
| PollingWatcher.Watcher.Shut | src/main/fs-watcher.ts:198-201 | closing clears the timer |
| BadgeInvalidation.BroadcastIsLogged | src/main/badge-invalidation.ts:57-60 | a step lengthens the log exactly by a broadcast, with its workspace and time |
| BadgeInvalidation.WaitIsHeld | src/main/badge-invalidation.ts:51-62 | a burst that waits has a live timer due one quiet window after its last notification |
| BadgeInvalidation.HeldIsWaiting | src/main/badge-invalidation.ts:51-62 | and every timer held belongs to a burst that waits |
| BadgeInvalidation.BroadcastEndsABurst | src/main/badge-invalidation.ts:51-62 | for any scheduler a broadcast comes a quiet window or more after a notification with no notification, stop or broadcast of that workspace in between |
| BadgeInvalidation.DueTimerTells | src/main/badge-invalidation.ts:57-60 | once the window of a waiting burst has passed, its one timer tells when it runs |
| BadgeInvalidation.OneBroadcastPerBurst | src/main/badge-invalidation.ts:51-62 | between two broadcasts of a workspace there is a notification of it |
| BadgeInvalidation.NothingAfterStop | src/main/badge-invalidation.ts:64-69 | nothing is broadcast after stop |
| BadgeInvalidation.BroadcastIsOnTime | src/main/badge-invalidation.ts:51-62 | with a prompt scheduler a broadcast comes exactly one quiet window after the last notification |
| BadgeInvalidation.QuietWindowIsTold | src/main/badge-invalidation.ts:51-62 | with a prompt scheduler every notification followed by a full quiet window has been told at its end |
| BadgeInvalidation.OthersDoNotInterfere | src/main/badge-invalidation.ts:45-70 | what the coordinator does for one workspace is what it would do if the others did not exist |
| BadgeInvalidation.BadgeInvalidationCoordinator.OnNotify | src/main/badge-invalidation.ts:51-62 | the method is the specified step |
| BadgeInvalidation.BadgeInvalidationCoordinator.OnTimer | src/main/badge-invalidation.ts:57-60 | the callback is the specified step |
| BadgeInvalidation.BadgeInvalidationCoordinator.ClearAll | src/main/badge-invalidation.ts:67 | the loop clears every timer of the map |
| BadgeInvalidation.BadgeInvalidationCoordinator.OnStop | src/main/badge-invalidation.ts:64-69 | stopping is the specified step |
| Relay.TimeoutMeansIdle | scripts/groupthink-v1.js:286-334 | a turn times out only if more than the timeout has passed since the last sample that showed the agent working, the last sample shows it neither working nor gone, and no poll had a new complete message |
| Relay.CompletionIsFresh | scripts/groupthink-v1.js:261-302 | a turn completes with the first new complete message any poll saw |
| Relay.NextExactly | scripts/groupthink-v1.js:261-267 | a message is next exactly if a poll answers with it, it ends a turn, and it is newer than the last one relayed |
| Relay.SeedExactly | scripts/groupthink-v1.js:269-282 | after seeding a message is next exactly if it ends a turn and is newer than the turn that was complete at the start |
| Relay.EveryPass | scripts/groupthink-v1.js:286-334 | at every pass of every wait: the status is looked at exactly when ten seconds have passed since the last look, and once more exactly when the agent was not seen working for longer than the timeout; the wait ends exactly for a next message, a failed request, an agent gone, or one seen idle by that last look |
| Relay.ReadinessIsSampled | scripts/groupthink-v1.js:244-259 | the receiver is ready on a sample in time that says so, and not ready only past the deadline after busy samples |
| Relay.ReadinessExactly | scripts/groupthink-v1.js:244-259 | the wait is undecided exactly while the receiver is busy in time at every pass; the first other pass decides it |
| Relay.HandOnKeeps | scripts/groupthink-v1.js:447-468 | handing on a fresh message of the agent whose turn it is keeps order, alternation and notes |
| Relay.TurnKeeps | scripts/groupthink-v1.js:442-474 | a whole turn relays both ways and keeps the same |
| Relay.TurnExactly | scripts/groupthink-v1.js:443-473 | every turn: which messages it relays and notes, that the plan file ends it exactly if it is there with the lead's message or behind two relayed messages, and that the loop goes on exactly behind two relayed messages without it |
| Relay.RunExactly | scripts/groupthink-v1.js:441-478 | over every run no turn but the last one taken saw the plan file, and the run ends as its last turn does, complete behind the plan file or out of turns, save that after the tenth turn the file must still be there |
| Relay.SeenPlanEndsRun | scripts/groupthink-v1.js:470-478 | a run whose last turn saw the plan file is complete, or stalls on the turn cap exactly if that was the tenth and the file is gone |
| Relay.EveryDeliberation | scripts/groupthink-v1.js:441-478 | over every run directions alternate, messages of one agent are strictly newer and newer and newer than its seed, success means the plan file was found, and the turn cap comes only after the last turn with the file missing |
| Relay.EveryBreakHasItsCause | scripts/groupthink-v1.js:443-503 | a run that stalls or fails other than by the turn cap does so because of its last turn: the speaker idle for longer than the timeout, the receiver busy up to the deadline, or an agent gone, a request failed or a message not accepted |
| Relay.TakenBecause | scripts/groupthink-v1.js:443-503 | how a turn ends has its cause in one of its halves |
| Relay.AtMostTenEachWay | scripts/groupthink-v1.js:442-474 | at most ten relays each way |
| Relay.GroupThink.ReadNextMessage | scripts/groupthink-v1.js:261-267 | the latest message is next exactly if it is complete and newer than the last one relayed |
| Relay.GroupThink.SeedLastRelayedTs | scripts/groupthink-v1.js:269-282 | after seeding, the message that was there is not relayed again |
| Relay.GroupThink.PollOnce | scripts/groupthink-v1.js:301-332 | one pass of the loop is the specified one |
| Relay.GroupThink.WaitTurnComplete | scripts/groupthink-v1.js:286-334 | the loop is the specified wait |
| Relay.GroupThink.WaitReceiverReady | scripts/groupthink-v1.js:244-259 | the loop is the specified wait |
| Relay.GroupThink.DoTurn | scripts/groupthink-v1.js:443-473 | a turn as code is the specified one |
| Relay.GroupThink.RunLoop | scripts/groupthink-v1.js:442-478 | the loop and the check behind it are the specified run |

## Left out

- HTTP, IPC, files, child processes, native dialogs, Electron windows, the Jupyter server and WSL are inputs or events.
- Match offsets in the quote window are integers; other JSON of an excerpt's metadata counts only by its size.
- `capListProjection` and `truncateCodePoints` in `scripts/mcp-tools-library.js`: the same bounded loops with less in them.
- The order of rows in the dialog text and of requests within a round of the close flush; file names and error texts of its rows.
- The text of repair details, and where the JSON parser reports an error: the position is an input, and parsing and canonical text are parameters with the laws of parse and stringify.
- RuntimeRepair.EveryInterleavingIsSafe: the planner's answer is any text that parses, which is what `ConfigRepair` proves of it.
- The gates of the relaunch route that look outside the handoff tables (busy agent, input in flight, awaiting a human, running orchestration) are one input; handoff rows written at a restart and notes scraped from other sources are not modelled.
- Session rows, bindings and providers that a relaunch also touches.
- Other routes of `src/main/api-server.ts`, and how a plan row is built from its manifest; its size and its id are inputs of the paging.
- PlanPaging.CompleteExactlyWhenCutsAreClean: assumes that tied rows are listed in one order in all requests; without ties any order will do.
- What a caller of the kernel client does with a manager that is disposed while its call resumes; `mergeStreamOutputs`.
- Canonicalisation of `file:` URIs, `~`, UNC and relative paths; the normalisation of the path library is modelled as a walk through segments.
- Detached views, which have neither owner nor close question; the reveal requests of the plans view.
- Window and contents numbers of the windowing system are never used twice; that is assumed.
- `subscribe` and the other backends of `src/main/fs-watcher.ts`, and listeners that unsubscribe while an event is delivered.
- The log of badge broadcasts, not which windows receive them.
- Delivery of the final event to the supervisor, launching and deleting of the two agents, and the prompts; time stamps are compared as numbers in the order of their strings.
