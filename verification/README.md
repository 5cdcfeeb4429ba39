# Tiny Hermes: a verified model

Tiny Hermes runs agents for workspaces: an API and workers over PostgreSQL, a sandbox in which file
tools work, a chat client, and scripts that measure and move deployments. This project models the parts
of it whose correctness is hardest to see, and proves what they promise for every input, every
interleaving and every reachable state. `dafny verify dfyconfig.toml` checks it.

**The sandbox file helper** (`Paths`, `FileSystem`, `FileHelper`, `Listing`). An inode graph of
directories, files and symbolic links, changed by system calls. Before each call of the helper any number
of steps of other processes may happen: they make, write, remove, rename and replace things anywhere, only
never carry a directory out of the data root (which is shown to be the one thing that would break the
boundary). Any call may fail, any read or write may be short. A descriptor is an inode held open. A record
of all states makes "at every moment" statements possible. `Kernel` is that machine; its methods are the
system calls and, built on them, the walk (`OpenParent`), the write protocol (`RunWrite`) and the bounded
read (`RunRead`); the record also shows that a write changes nothing but directories of its path, its two
names and one new file, and a read nothing at all. Four findings are stated exactly. The write is atomic
for every target but one that has the name of the temporary file; when the input is empty, what is torn
there is only that the new file is not yet on stable storage. After a failure the temporary file is gone
if and only if removing it worked, or it had become the target already, since the helper does not look at
that result; with no call failing it is always gone. A read's exit code does not tell whether the end of
the output left the process, as the result of the last flush is ignored. A listed name reads back from its
JSON form if and only if it is UTF-8; the backend decodes the output with replacement characters
(`packages/backend/src/tiny_hermes/sandbox/infrastructure/docker_engine.py:197`), so other names come back
changed.

**Event sequences** (`EventSequences`). Transactions that reserve numbers from a run's row, insert events
and commit or abort, interleaved with each other and with readers that poll, break off and resume. Nothing
is lost or given twice, and from every reachable state writers can write and readers can catch up.

**Sending a chat message** (`Drafts`, `ChatSend`). A client with quota-limited session storage, a memory
lost on reload and requests that may be lost, late or delivered twice, against a server that answers a
repeated idempotency key with the first Run. The page comments that a retry repeats the same request. That
holds across any number of lost answers, failed writes and reloads, so one text tried again and again runs
once, for every reload but one: when a conversation was created and this device failed to remember it, a
reload opens a new chat, and the same text sent again runs twice. Both halves are proved, and that the
condition is exact. A ghost number marks each message as meant once in its conversation; no step looks at it.

**Measurement** (`Sweep`, `Probe`, `Percentiles`, `Gates`, `Tally`). Peak overlap, mean running, interpolated
percentiles in two scripts, gate verdicts and event tallies, over exact reals.

**Row-level security** (`RowSecurity`). The policy condition as a SQL expression with nulls, errors and an
OR evaluated in any order, and whole transactions of an adaptive client run under it.

**Transformations** (`Transcript`, `SessionRail`, `BucketCopy`). Tool calls paired with results through
shared objects, messages grouped into replies, the rail of conversations, and the resumable copy of an
object store.

`Options`, `Reals`, `Sequences` and `Sorting` hold what several modules share.

## Model

| member | source | states |
|---|---|---|
| Paths.JoinSegments | deploy/sandbox/file_helper.c:68-79 | splitting a path at its slashes loses nothing: the names hold no slash and joined again are the path |
| Paths.SegmentsJoin | deploy/sandbox/file_helper.c:68-79 | the split is the only such reading: any slash-free names, joined, split back into themselves |
| Paths.PathIsSafe | deploy/sandbox/file_helper.c:59-80 | the walk accepts a path if and only if it is non-empty, under 4096 bytes and every segment is a real name of 1 to 255 bytes other than `.` and `..`; a leading slash is an empty segment |
| FileSystem.StepKeepsWF | deploy/sandbox/file_helper.c:47-55 | every system call keeps the inode graph well formed: no dangling entry, a directory has one name only, no inode number is reused and no node changes kind |
| FileSystem.StepKeepsHeld | deploy/sandbox/file_helper.c:5-11 | the boundary: whatever one step of another process makes, moves, removes or replaces with a symbolic link, an open directory that was inside the root is still inside it or has been removed, provided the step carries no directory out of the root |
| FileSystem.CarryingOutEscapes | deploy/sandbox/file_helper.c:5-11 | that proviso is exact: every step that does carry a directory out takes it away from whoever holds it open |
| FileSystem.MovedStaysInside | deploy/sandbox/file_helper.c:5-11 | a directory moved, or lying below one that is moved, is reached inside again after the move |
| FileSystem.WorldKeeps | deploy/sandbox/file_helper.c:5-11 | the same over any number of steps of other processes between two calls |
| FileSystem.OthersMay | deploy/sandbox/file_helper.c:5-11 | the other processes are not weaker than they should be: they may make entries wherever there is none, take away files, links and empty directories, and move files anywhere and directories anywhere inside but below themselves |
| FileSystem.LandingTouchesInside | deploy/sandbox/file_helper.c:47-55 | a step taken beneath a directory inside the root changes no node outside it |
| FileHelper.OutsideSurvives | deploy/sandbox/file_helper.c:5-11 | over a whole recorded run, a node that stays outside the root and that other processes leave alone is at the end what it was at the start |
| FileHelper.Kernel.OpenDirectory | deploy/sandbox/file_helper.c:47-55 | one `openat2` of one name: the descriptor it gives stands for a directory that was a real entry of the one it started from and lay inside the root at that moment; a missing name is told apart from every other failure |
| FileHelper.Kernel.CopyName | deploy/sandbox/file_helper.c:255-258 | the segment copied into the name buffer, with its terminator, never overruns the buffer and is the segment |
| FileHelper.Kernel.Enter | deploy/sandbox/file_helper.c:260-271 | one segment of the walk, with the directory made when it is missing and opened again: fails only if a call failed or another process interfered, and with no call failing only if the directory was there and has been taken away again; it changes nothing, except that it may make this one directory |
| FileHelper.Kernel.OpenParent | deploy/sandbox/file_helper.c:243-275 | exactly one new descriptor on success and none on failure; every directory on the way was a real entry of the one before and inside the root when it was opened, under the names of the path in their order; left alone, the walk succeeds and ends where the path leads; it changes nothing, except that it makes directories of the path at the places it has come to |
| FileHelper.Kernel.Pour | deploy/sandbox/file_helper.c:294-317 | the copy loop: the temporary file holds exactly the input read, never more than the limit, and the target shows the same at every moment; the over-limit exit means the input really is too long |
| FileHelper.Kernel.Publish | deploy/sandbox/file_helper.c:319-333 | flush, rename, flush as far as nothing fails: at each recorded moment the target shows its old content or all of the input on stable storage; success means that it has become the target; otherwise nothing has, or it has and only the last flush failed |
| FileHelper.Kernel.Settle | deploy/sandbox/file_helper.c:319-333 | the same with the clean-up: after any failure the temporary file is gone if and only if removing it worked or it had become the target by then; after success it is the target |
| FileHelper.Kernel.WriteLeaf | deploy/sandbox/file_helper.c:277-334 | for any short, failing or interrupted call: the target is old or complete at every recorded moment if and only if it is not the temporary name itself; exit 0 means the target is the input, within the limit and synced; over the limit leaves the target as it was; after any failure the temporary file is gone if and only if it was removed or has replaced the target; with no failing call the exit follows from the length alone and no temporary file is left; its own calls change nothing but these two names and one new file |
| FileHelper.Kernel.RunWrite | deploy/sandbox/file_helper.c:277-334 | the whole verb, with other processes interfering with the walk: no descriptor leaks, refusal touches nothing, the exit is one of four, and every promise of the walk and of WriteLeaf holds of the directory arrived at, the limit on the temporary file and its fate included; nothing changes but directories made on the way, the two names and one new file; with no call failing, a walk fails only for a directory taken away again, and left alone the length alone decides |
| FileHelper.ResolvesBeneath | deploy/sandbox/file_helper.c:44-55 | a whole path resolved beneath the root without links ends at something inside the root, or listed by a directory inside |
| FileHelper.WayOf | deploy/sandbox/file_helper.c:44-55 | what a path resolves to is where its way leads: one directory for each name, from the start on, each listing the next, and the last listing what is found |
| FileHelper.WayResolves | deploy/sandbox/file_helper.c:44-55 | and every such way that ends at an entry is what the path resolves to, so there is only one |
| FileHelper.Kernel.Drain | deploy/sandbox/file_helper.c:210-226 | with reads of any short count the loop ends and has printed exactly the first bytes of an unchanging file up to the limit; when a call fails, a beginning of them |
| FileHelper.Kernel.Flush | deploy/sandbox/file_helper.c:227 | everything printed leaves the process, or the call fails with some of it left |
| FileHelper.Kernel.RunRead | deploy/sandbox/file_helper.c:196-235 | the whole verb: on exit 0 or 3 what has left the process and what stdio still holds are together the start of the file at the end of the way of the path, followed name by name through real directories from the root; all of it has left if and only if no call failed, and exit 3 means that bytes of the file were left out; on exit 2 it is a beginning of that start, or nothing, and a call failed or no way leads to a regular file; its calls change nothing and no descriptor leaks |
| Listing.JsonEscape | deploy/sandbox/file_helper.c:82-92 | the printing loop prints the escaped form of every name |
| Listing.EscapedNameReadsBack | deploy/sandbox/file_helper.c:82-92 | read as a JSON string by section 7 of RFC 8259, in UTF-8, an escaped name gives the name back and stops at its closing quote, whatever follows, if and only if the name is UTF-8 |
| Listing.ByteThatDoesNotReadBack | deploy/sandbox/file_helper.c:88-90 | the one-byte name 255, which a directory may list, is printed as it is and refused by every such reader |
| Listing.BeforeIsTransitive | deploy/sandbox/file_helper.c:114-117 | comparison by unsigned bytes, an end first, is an order (with BeforeIsTotal and BeforeBothWays) |
| Listing.BeforeIsTotal | deploy/sandbox/file_helper.c:114-117 | any two names can be compared |
| Listing.BeforeBothWays | deploy/sandbox/file_helper.c:114-117 | names that come before each other are the same name |
| Listing.ListedUpwards | deploy/sandbox/file_helper.c:114-176 | in a directory's listing each name comes before the next by being a proper prefix of it, or by the smaller byte where the two first differ; no name is listed twice |
| Listing.ListsEach | deploy/sandbox/file_helper.c:150-174 | every entry tells of a name read other than the two dots and still there, and every such name has one: its kind by the format of the mode, a size for a regular file only, the low twelve bits of the mode |
| Listing.ReadAll | deploy/sandbox/file_helper.c:146-174 | through every growth of the array the entries kept are those read so far, dot entries and vanished ones left out; it fails only for lack of memory |
| Listing.ReadingOrderDoesNotMatter | deploy/sandbox/file_helper.c:150-176 | the sorted listing of a directory is the same however `readdir` orders it |
| Listing.PrintPage | deploy/sandbox/file_helper.c:177-189 | the entries printed are those from the offset on, as many as the limit allows, each with its escaped name |
| Listing.RunList | deploy/sandbox/file_helper.c:132-192 | as many lines as the page holds, each with the escaped name, kind, size and mode of its entry of the sorted listing, and the full count; it fails only when the directory cannot be opened or memory runs out, and then prints nothing |
| Listing.PagesJoin | deploy/sandbox/file_helper.c:176-189 | for every positive page size, consecutive pages, each from its own reading in its own order, join to the whole listing with nothing repeated or dropped |
| EventSequences.NeverRefused | migrations/versions/20260810_0002_agent_runs.py:283-302 | in every reachable state the allocator's next insert meets neither the unique constraint nor the check that a sequence is positive |
| EventSequences.StepKeeps | scripts/benchmark_live.py:1268-1281 | one step of any transaction or reader keeps the invariant: committed sequences without gap, one holder of a run's row, readers served in order |
| EventSequences.CommittedWithoutGap | scripts/benchmark_live.py:70-79 | under every interleaving of reserving, inserting, committing and aborting, a run's committed sequences are exactly 1 up to the counter, each once, and the benchmark's check counts no loss |
| EventSequences.AllocatorWrites | scripts/benchmark_live.py:1268-1281 | from every reachable state a transaction that reserves numbers of a run no other holds may insert that many, each time allowed, and commit: the counter has then moved by as many, just the next rows are there beside those it had written before, and nothing else has changed |
| EventSequences.AbortLeavesNothing | scripts/benchmark_live.py:1268-1281 | aborted after any of these inserts it leaves counters, rows and readers as they were |
| EventSequences.FirstEvents | scripts/benchmark_live.py:1268-1281 | a run just created starts at 1: its first events are 1 to as many as reserved, and one who follows it is given just these |
| EventSequences.PollSkipsNothing | scripts/benchmark_live.py:1220-1228 | whatever the cursor, the answer to a poll begins with the very next number and has no gap |
| EventSequences.ReaderSkipsNothing | scripts/benchmark_live.py:1220-1228 | a reader that breaks off and resumes from any number it was given has received 1 up to its cursor in order, and what comes next shows no reconnect gap |
| EventSequences.ReaderCatchesUp | scripts/benchmark_live.py:1220-1228 | from every reachable state, whatever number it goes back to, a reader that takes one poll whole holds 1 up to the last committed number |
| EventSequences.PostgresEventStore.Write | scripts/benchmark_live.py:1268-1281 | one transaction takes the next numbers and inserts a row for each, or changes nothing |
| EventSequences.PostgresEventStore.WriteMany | scripts/benchmark_live.py:1200-1208 | in chunks of 2000 with other writers in between: the rows written are new, of this run and as many as asked, or the whole chunks before the one that failed; with no one in between the counter has moved by just that much |
| EventSequences.LossIsMissing | scripts/benchmark_live.py:146-150 | the loss computed from largest, smallest and count is the number of integers between them never seen |
| EventSequences.LossOfJoin | scripts/benchmark_live.py:146-154 | for two streams, one wholly after the other, the loss of both is the two losses and the gap where they meet |
| Drafts.MoveLosesNothing | apps/chat-web/src/chat/drafts.ts:55-67 | however the three writes of a move go, text, files and pending key end up whole in one place: at the new conversation when the move reports success, else where they were; success exactly when every needed write was accepted; no other draft changes |
| Drafts.MovesItems | apps/chat-web/src/chat/drafts.ts:55-67 | on the stored items: a draft that is moved has the old one's text unless it was empty, its first eight files and its key, and one that is not is untouched; moved exactly when each write it needs was accepted |
| Drafts.SessionStorage.SaveDraftText | apps/chat-web/src/chat/drafts.ts:78-86 | an empty text removes the draft, which cannot fail; otherwise it is stored or, when storage refuses, left as it was |
| Drafts.SessionStorage.SaveDraftFiles | apps/chat-web/src/chat/drafts.ts:13-19 | likewise for the file names |
| Drafts.SessionStorage.SavePendingSend | apps/chat-web/src/chat/drafts.ts:40-45 | the text and key are stored together or not at all |
| Drafts.SessionStorage.ClearDraft | apps/chat-web/src/chat/drafts.ts:47-53 | text, files and key of this conversation are gone and no other draft changes |
| Drafts.SessionStorage.MoveDraft | apps/chat-web/src/chat/drafts.ts:55-67 | the saves and clears in their order amount to the all-or-nothing move |
| ChatSend.PreviousIsStored | apps/chat-web/src/pages/ChatPage.tsx:177-179 | what the mutation reads as the earlier attempt, from memory or from storage, is always what storage holds for the open conversation |
| ChatSend.StepKeeps | apps/chat-web/src/pages/ChatPage.tsx:167-221 | every step, from typing to a late second delivery of a request, keeps the invariant between storage, memory, requests in flight and the server's records |
| ChatSend.PathKeeps | apps/chat-web/src/pages/ChatPage.tsx:167-221 | so does any run of steps |
| ChatSend.AtMostOneRun | apps/chat-web/src/pages/ChatPage.tsx:167-221 | across lost and repeated answers, reloads, failed writes, retries, other conversations and a session created during the send, no two Runs come from one message, meant once in one conversation |
| ChatSend.RetriesRunOnce | apps/chat-web/src/pages/ChatPage.tsx:167-221 | from any reachable state, however often one text is tried, with failed writes, lost and late answers, the session created on the way and reloads that come back to the conversation: of all requests for it, earlier ones for the same pending message included, at most one has a Run |
| ChatSend.RetryRepeats | apps/chat-web/src/pages/ChatPage.tsx:176-205 | while a message is still meant, any request ever sent for it has its key stored where the next attempt reads it; that attempt posts the very same request, and the server never refuses it as another's |
| ChatSend.SendPosts | apps/chat-web/src/pages/ChatPage.tsx:176-202 | a text sent in an existing conversation is posted there, under the key pending for it, or under one that no request ever had; text and key are stored, and delivered it has one more Run unless its key was used before |
| ChatSend.UnstoredIsNotSent | apps/chat-web/src/pages/ChatPage.tsx:180 | without text and key stored nothing is sent, and nothing is lost |
| ChatSend.FailureKeepsDraft | apps/chat-web/src/pages/ChatPage.tsx:181-202 | whichever of the requests or writes of a send fails, the open conversation keeps its draft and key and can be sent again |
| ChatSend.DoneIsForgotten | apps/chat-web/src/pages/ChatPage.tsx:206-209 | what was answered, or emptied by hand, is done with: its draft and key are gone, and the same text sent again is a request never sent before that runs once more |
| ChatSend.CreatedIsRemembered | apps/chat-web/src/pages/ChatPage.tsx:92-102 | a conversation just created is open and a reload comes back to it, with the key for its message, if and only if this device could remember it |
| ChatSend.KeptUnlessEnded | apps/chat-web/src/pages/ChatPage.tsx:174-209 | what is pending in a conversation is ended by an answer, an emptied box, another text sent there, hiding it, or its move, and by no other step in whatever conversation |
| ChatSend.ComesBack | apps/chat-web/src/pages/ChatPage.tsx:176-202 | however long one is elsewhere, writing and sending in other conversations and reloading, opening the conversation again and sending the text again uses the key it was first given |
| ChatSend.HiddenForGood | apps/chat-web/src/pages/ChatPage.tsx:302-308 | a hidden conversation never comes back: in every later state it is not open, not remembered and has no draft |
| ChatSend.TypedIsStored | apps/chat-web/src/chat/drafts.ts:78-86 | what is typed is stored beside what is pending there, or left as it was when storage refuses; no other draft changes |
| ChatSend.ReloadKeepsKey | apps/chat-web/src/pages/ChatPage.tsx:92-102 | a reload returns to the same key if and only if the page is on a new chat or on a conversation this device remembers |
| ChatSend.ForgottenReloadRunsTwice | apps/chat-web/src/pages/ChatPage.tsx:92-102 | where a reload does not come back, these steps create two Runs of one text, with no answer, emptied box or other text between: the reload, the request delivered, the text sent, the conversation created, the new request delivered |
| ChatSend.RunsTwiceExactlyIfForgotten | apps/chat-web/src/pages/ChatPage.tsx:92-102 | while a message is still meant, a reload and further tries of its text can run it twice if and only if this device does not remember the conversation |
| ChatSend.DeliveredRuns | packages/backend/src/tiny_hermes/runs/infrastructure/sql_store.py:3770-3810 | a request that reaches the server has its Run, the same one however often it arrives |
| ChatSend.NewChatRuns | apps/chat-web/src/pages/ChatPage.tsx:181-205 | sending from a new chat, when the text is stored, the conversation created and remembered, the draft moved and the request delivered, creates just one more Run, of that text |
| Sweep.PeakOverlap | scripts/concurrency_probe.py:107-118 | the sweep returns the maximum over all instants of the intervals begun less those ended, which for intervals that run forwards is the number holding the instant, its end excluded |
| Sweep.NetIsCount | scripts/concurrency_probe.py:107-118 | for intervals that run forwards, begun less ended is the number of intervals holding the instant |
| Sweep.PeakOfPermutation | scripts/concurrency_probe.py:110-113 | the peak does not depend on the order of the intervals |
| Sweep.OneAtATime | scripts/concurrency_probe.py:108-109 | the peak is at most one if and only if no two non-empty intervals overlap; one starting where another ends is no overlap |
| Sweep.AreaUnderPeak | scripts/concurrency_probe.py:107-118 | up to each sorted edge, the area under the number running is at most the peak times the time gone by |
| Sweep.BusyTimeWithinPeak | scripts/concurrency_probe.py:167-171 | the time all intervals take together is at most the peak times the window they lie in |
| Probe.MeanWithinPeak | scripts/concurrency_probe.py:132-171 | for runs whose times are in order and within the observation, the mean number running lies between zero and the peak |
| Probe.SpreadOf | scripts/concurrency_probe.py:121-129 | in every spread the median is at most the 95th percentile, which is at most the maximum, and the maximum is one of the values |
| Probe.WaitsOfAll | scripts/concurrency_probe.py:139-142 | every run has its wait, in order: from its creation to its start, or to the end of the observation while it has not started |
| Probe.ServicesAre | scripts/concurrency_probe.py:148-155 | a time is among the services, or among the times from end to end, as often as a completed run took it |
| Probe.TimesMissing | scripts/concurrency_probe.py:154-161 | unfinished are the runs without an end, never started those without a beginning |
| Probe.StatusesCounted | scripts/concurrency_probe.py:163 | the count under each status is the number of runs with it |
| Probe.Summarize | scripts/concurrency_probe.py:132-172 | the whole summary, on the runs themselves: the peak is the most runs started and not yet finished at one instant, the mean times the window is the time they ran together, and it never exceeds the peak; the window reaches back to the earliest creation; completed, failed, unfinished and never started runs are counted as such |
| Percentiles.SortedDominated | scripts/benchmark_m1.py:109 | if one sample is no larger than another under any pairing, its ordered values are no larger place by place |
| Percentiles.OrderDoesNotMatter | scripts/benchmark_m1.py:108-118 | a percentile does not depend on the order of the values |
| Percentiles.WithinRange | scripts/benchmark_m1.py:108-118 | a percentile lies within every bound that holds for all values |
| Percentiles.Extremes | scripts/benchmark_m1.py:108-118 | the 0th and 100th are the smallest and the largest value |
| Percentiles.GrowsWithP | scripts/benchmark_m1.py:114-118 | a higher percentile is no smaller, within a cell of the interpolation and across cells |
| Percentiles.GrowsWithValues | scripts/benchmark_m1.py:108-118 | a sample no larger under any pairing has no larger percentiles |
| Percentiles.ScriptsAgree | scripts/workspace_drill.py:298-305 | for every number asked for, the drill's answer is the benchmark's percentile at the nearest whole number from 1 to 99, fractions dropped |
| Percentiles.ScriptsAgreeOnWholePercentiles | scripts/workspace_drill.py:298-305 | so the two scripts agree on every whole percentile from 1 to 99 |
| Gates.Evaluate | scripts/benchmark_m1.py:191-238 | a gate passes if and only if no limit that applies is broken and the caller adds no reason; each broken limit, and no other, is named once with the figures measured and allowed, before the caller's reasons; the error rate times the total is the number of errors, and an empty sample fails every error limit below 1 |
| Gates.BetterBreaksNoMore | scripts/benchmark_m1.py:191-238 | latencies no larger under any pairing, no more errors of the same total, no longer, no slower, sampled no shorter, no added reasons: no limit is broken that the other sample keeps |
| Gates.EvaluateBetter | scripts/benchmark_m1.py:191-238 | so two calls on such samples: a pass on the worse is a pass on the better, and its percentiles are no larger |
| RowSecurity.PolicyDecides | migrations/versions/20261023_0075_row_level_security.py:64-70 | under every order of evaluating the OR the condition is true without a workspace, fails exactly when the setting is neither empty nor a UUID in any form PostgreSQL takes, and otherwise compares the row's workspace with it |
| RowSecurity.SettingReadsBack | packages/backend/src/tiny_hermes/shared/tenancy_scope.py:50-55 | the text of a workspace id that a transaction is given is read as that id |
| RowSecurity.UnguardedFails | migrations/versions/20261023_0075_row_level_security.py:64-66 | without the guard on the cast some order of evaluation fails if and only if the setting is present and no UUID, the empty one included |
| RowSecurity.PlatformRowsStayInSight | migrations/versions/20261023_0075_row_level_security.py:100-101 | where the platform keeps rows of its own, these are seen from every workspace, and no other rows more than on tenant tables |
| RowSecurity.ApplyInSight | migrations/versions/20261023_0075_row_level_security.py:104-109 | a select, insert, update or delete run on the rows in sight by themselves gives the same answer and leaves the same rows in sight; the rows out of sight stay as they are |
| RowSecurity.SelectsOwn | migrations/versions/20261023_0075_row_level_security.py:12-15 | a select in a session that carries a workspace answers with all matching rows of that workspace and no other, and never fails |
| RowSecurity.DeletesOwn | migrations/versions/20261023_0075_row_level_security.py:12-15 | a delete in such a session takes away exactly that workspace's matching rows, and leaves every other row as often as it was there |
| RowSecurity.UpdatesOwn | migrations/versions/20261023_0075_row_level_security.py:12-15 | an update that the condition accepts changes exactly that workspace's matching rows, in place, and one that would carry a row to another workspace is refused and changes nothing |
| RowSecurity.InsertsOwn | migrations/versions/20261023_0075_row_level_security.py:104-109 | an insert is accepted if and only if every new row is the workspace's, and its rows are then there |
| RowSecurity.RunOnView | migrations/versions/20261023_0075_row_level_security.py:12-15 | so does a whole transaction of a client that chooses each statement by the answers so far |
| RowSecurity.OthersUnchanged | migrations/versions/20261023_0075_row_level_security.py:12-15 | whatever a transaction that carries a workspace does, the rows of every other workspace are unchanged, in content and order |
| RowSecurity.NonInterference | migrations/versions/20261023_0075_row_level_security.py:12-15 | on any two databases that agree on the workspace's rows it gets the same answers and leaves them agreeing, even under different orders of evaluation |
| RowSecurity.UnscopedSeesAll | packages/backend/src/tiny_hermes/shared/tenancy_scope.py:11-15 | a session without a workspace sees every row and is refused none |
| Transcript.ToolsOf | apps/chat-web/src/runs/transcript.ts:23-49 | one fresh round object for each call spoken of, in order of first appearance, showing what its parts say, although the index and the list share the objects being changed |
| Transcript.AddRound | apps/chat-web/src/runs/transcript.ts:31-45 | one more part changes the one shared object of its call, or adds one, and leaves all others |
| Transcript.IdsAppearInOrder | apps/chat-web/src/runs/transcript.ts:28-37 | no call has two rounds, and an earlier round's call was spoken of before a later one's |
| Transcript.OneMorePart | apps/chat-web/src/runs/transcript.ts:39-46 | name and arguments follow the last part that names the call, output and status its last result, and the first part where there is none |
| Transcript.InterleavingDoesNotMatter | apps/chat-web/src/runs/transcript.ts:18-22 | a round depends on the parts about its own call, in their order, and not on what comes between |
| Transcript.CallMeetsResult | apps/chat-web/src/runs/transcript.ts:18-22 | a named call and its result make one round with the name and arguments of the one and the output of the other, whichever comes first; it is failed, succeeded or only returned exactly as the flag and the exit code of the result say |
| Transcript.LastOfIsLast | apps/chat-web/src/runs/transcript.ts:39-46 | the last part of a kind is followed by no other of that kind; none is found only where there is none |
| Transcript.FirstOfIsFirst | apps/chat-web/src/runs/transcript.ts:34-37 | likewise for the first part about a call |
| Transcript.EntriesOf | apps/chat-web/src/chat/Transcript.tsx:49-61 | the entries group the transcript: each message of the user by itself, all others between those as one reply, each with the place of its first message |
| Transcript.FlattensBack | apps/chat-web/src/chat/Transcript.tsx:49-61 | flattened, the entries are the transcript |
| Transcript.OneGrouping | apps/chat-web/src/chat/Transcript.tsx:41-48 | there is only one such grouping, so every reply is as long as it can be |
| Transcript.InOneReply | apps/chat-web/src/chat/Transcript.tsx:41-48 | two messages with none of the user's from one to the other are in one reply, so a call and its result always meet |
| BucketCopy.CopyObject | scripts/migrate_object_store.py:73-88 | one object: counted as copied or skipped only when the target reads back with the source's digest; what matched already is not written |
| BucketCopy.CopyBucket | scripts/migrate_object_store.py:63-89 | a run that finishes leaves every listed key with the source's digest, has counted each once, and lists exactly those the target lacked; cut off or not, no other key changes and nothing that matched is touched; it stops only for a faulty store or a key the source does not have |
| BucketCopy.Migrate | scripts/migrate_object_store.py:14-16 | after any number of runs cut off anywhere, with any bytes left behind, one that finishes is complete and the next copies nothing; all other keys are as at the start |
| BucketCopy.NothingLacking | scripts/migrate_object_store.py:80-82 | the keys a run has to copy are those that do not match; there is none if and only if every key matches already |
| BucketCopy.NamedAre | scripts/migrate_object_store.py:71-74 | the keys gone through are those of the listing's entries that have one |
| SessionRail.ActionsKeepListsDistinct | apps/chat-web/src/chat/sessionPrefs.ts:41-70 | from no preferences, no sequence of pinning, archiving and hiding ever puts an id into a list twice |
| SessionRail.ArrangedIsPermutation | apps/chat-web/src/chat/sessionPrefs.ts:72-82 | for any preferences, also damaged ones, the open and archived lists together are a rearrangement of the sessions not hidden if and only if no session of the open list is pinned twice |
| SessionRail.RailShowsEachOnce | apps/chat-web/src/chat/sessionPrefs.ts:41-82 | so after any actions every session not hidden is on the rail exactly as often as it is among the sessions, and a hidden one not at all |
| SessionRail.Placed | apps/chat-web/src/chat/sessionPrefs.ts:76-81 | archived sessions are in the one list and all others in the other, which shows the pinned ones before the rest |
| SessionRail.PinnedComesFirst | apps/chat-web/src/chat/sessionPrefs.ts:49-81 | a session just pinned comes first in the open list |
| SessionRail.ArchivedAndBack | apps/chat-web/src/chat/sessionPrefs.ts:56-81 | archiving moves a session to the archived list; taking it back returns it to the open list, unpinned |
| SessionRail.HiddenIsNowhere | apps/chat-web/src/chat/sessionPrefs.ts:64-81 | a session just hidden is in neither list |
| SessionRail.UnpinnedStays | apps/chat-web/src/chat/sessionPrefs.ts:49-81 | with its pin taken away a session stays in the open list, after the pinned ones, and no other pin changes |
| SessionRail.OnlyThatOneMoves | apps/chat-web/src/chat/sessionPrefs.ts:49-82 | pinning, archiving or hiding a session, and taking that back, moves only that one: without it both lists are, order included, what they were |
| SessionRail.ListedKeepsOrder | apps/chat-web/src/chat/sessionPrefs.ts:76-81 | archived and unpinned sessions keep the order they came in |
| SessionRail.PinnedGoByPins | apps/chat-web/src/chat/sessionPrefs.ts:79 | pinned sessions are in the order of their pins |
| SessionRail.GroupSessions | apps/chat-web/src/chat/sessionGroups.ts:55-73 | the map of bands filled by the loop gives the bands in order, empty ones left out |
| SessionRail.GroupsByAge | apps/chat-web/src/chat/sessionGroups.ts:28-73 | a session is listed in the band of its age in days: 0 or less, 1, 2 to 6, more or unreadable; and the bands come in this order, each once |
| SessionRail.BandsKeepAll | apps/chat-web/src/chat/sessionGroups.ts:55-73 | the bands hold every session exactly once |
| SessionRail.BandKeepsOrder | apps/chat-web/src/chat/sessionGroups.ts:49-54 | within a band the order of the list is kept |
| SessionRail.BandsJoinToList | apps/chat-web/src/chat/sessionGroups.ts:49-73 | the joined bands are the list itself if and only if no session is listed after one of an earlier band |
| SessionRail.NewestFirstStays | apps/chat-web/src/chat/sessionGroups.ts:28-73 | as is every list with the newest day first and unreadable dates last |
| Tally.Tally | scripts/real_task_probe.py:186-232 | a row for each run and no other, with status and execution time of the last run of its id; every figure is the sum of its own field over the events of its kind for that run; the failure is the last one's reason, and a remainder makes model, tool and other time add up to the execution time |
| Tally.TallyPermuted | scripts/real_task_probe.py:211-232 | two tallies of the same events in different orders agree in every row but for the failure reason |
| Tally.OrderDoesNotMatter | scripts/real_task_probe.py:211-228 | no count, time or token depends on the order of the events |
| Tally.TotalsAgree | scripts/real_task_probe.py:211-228 | the totals over the rows of all runs are the totals over the events of known runs |

## Left out

- FileSystem.StepKeepsHeld: other processes are taken not to carry a directory across the boundary of the root; CarryingOutEscapes shows that no more can be promised.
- FileHelper.Kernel.WriteLeaf: other processes leave the target's and the temporary file's names alone while the file is written (against the walk they may do anything); "on stable storage" is a flag on a file, and the durability of the rename itself is not modelled.
- FileHelper.Kernel.RunRead: the file, and what its name leads to, is not changed by others once it is open; resolving a path of several segments is one step, as in `openat2`.
- FileHelper.Kernel.OpenDirectory: the kernel's flags for resolving beneath the root without links are its step semantics, not derived.
- Listing.RunList: the descriptor of the directory, errors of reading it and changes between `readdir` and `fstatat` other than a vanished name are not modelled; the document is its entries and total, not its punctuation and digits, and failures to print it, which the helper ignores, are not modelled.
- Listing.PagesJoin: the directory does not change between pages, and its names are distinct and at most 255 bytes, as the kernel has them.
- Hard links are not among the steps of other processes, descriptor numbers are never used twice, and the helper's `probe` verb, argument parsing and error texts are left out.
- EventSequences.CommittedWithoutGap: a transaction's locks and atomicity are its step semantics; events deleted by retention are left out.
- EventSequences.PostgresEventStore.WriteMany: other writers come between its transactions; interleaving within one is the state machine's.
- Drafts.MoveLosesNothing: reading and removing an item never fail, only writing does; the JSON form of an item is not modelled.
- ChatSend.AtMostOneRun: a message sent again after a reload that forgot its conversation counts as meant anew there; RetriesRunOnce and RunsTwiceExactlyIfForgotten speak of the text itself.
- ChatSend.RetriesRunOnce: the server's idempotency records, which expire after a day, are taken to last through a retry; several tabs, steering a Run and the check that the identity is still the same are left out, and empty text is kept out by the composer, not by the mutation.
- ChatSend.StepKeeps: the composer's submit lock and its epochs are one flag, the phase of the send; there is one agent, and so one draft of a new chat.
- FileHelper.Kernel.Print: after a failing `fwrite` some end of what was printed may be lost, and stdio's own flush as the process ends comes after the verb.
- Probe.Summarize: the arrival offsets, with their rounding slack, are left out.
- Percentiles.GrowsWithP: percentiles below 0 or above 100, which no caller asks for, are left out.
- Gates.Evaluate: reasons are data, not formatted sentences; floating-point rounding is left out here and in all measurements.
- RowSecurity.NonInterference: on tenant tables; unique and foreign keys, the platform's own rows, privileges, and a client that changes the setting itself are left out, as is the migration's loop that attaches the condition to the listed tables.
- Transcript.ToolsOf: a call's arguments are a map of texts; the text of a message (`textOf`, `textsOf`) is left out as easy.
- BucketCopy.CopyBucket: one bucket, of which the source does not change during the runs and whose listing names each key once, and no other writer on the target.
- SessionRail.GroupSessions: days are counted evenly, without daylight-saving changes; searching by title and loading preferences from storage are left out.
- Tally.Tally: figures missing from an event's payload are zero, as the script reads them.
- The backend's use cases, workers, HTTP, streaming, rendering, Docker and encryption are left out.
