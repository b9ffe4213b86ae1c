# Verification of the oh-my-openagent core

A Dafny model of the parts of the repository whose correctness depends on order, interleaving or exact
byte arithmetic, with proofs for all inputs, all runs and all reachable states. `dafny verify dfyconfig.toml`
checks everything.

| file | models |
|---|---|
| `Edits.dfy`, `EditOps.dfy`, `EditText.dfy`, `Anchors.dfy` | the hash-anchored batch edit engine of `packages/hashline-core` |
| `LineHash.dfy`, `Xxh32.dfy` | the line hash behind an anchor, down to XXH32 in JavaScript numbers |
| `Stream.dfy`, `FileText.dfy`, `LineDiff.dfy` | streaming listings, line-ending envelopes and diff counts of the same package |
| `Transport.dfy` | the mixed line / Content-Length JSON-RPC reader of `packages/mcp-stdio-core` |
| `CacheLock.dfy` | the build-cache lock of `script/build-omob.ts` as an interleaving protocol with crashes |
| `Scheduler.dfy` | the bounded-parallel build scheduler of `script/build.ts` |
| `Collector.dfy`, `Utf8.dfy` | the `sg` output collector of `packages/ast-grep-mcp` and its UTF-8 cutting |
| `Plan.dfy` | plan checklists of `packages/boulder-state` |
| `Cancellation.dfy` | per-connection cancellation of `packages/lsp-daemon` |
| `Lease.dfy`, `Daemons.dfy`, `StartupLock.dfy` | the daemon's startup lease: one start against an adversarial environment, many daemons interleaved, and the lock file below |
| `Reap.dfy` | the sweep that retires other daemon versions |
| `Text.dfy`, `Sorting.dfy` | shared sequence, text and stable-sort lemmas |

## How the source appears in the model

- Loops and mutable state stay loops, methods and classes; each such method is proved equal to a
  specification function, and the theorems are about that function.
- Foreign code is a parameter: UTF-8 decoding and `JSON.parse` (`Transport.Codec`, `Collector.Config`),
  `autocorrectReplacementLines` (`EditOps.Autocorrect`), the Unicode letter-or-digit test (`LineHash`), and in
  the anchor and edit theorems the two line hashes themselves (`Anchors.Hashes`; `LineHash.LineHashesAreDictionary`
  shows that the real ones qualify).
- Processes, timers, file systems and completion orders are environment choices that the theorems quantify over; in `Lease`
  and `Reap` every outside call is an event of a trace and the environment may answer each one as it likes.
- Integers are unbounded, except in `Xxh32`, where every 32-bit wrap and every safe-integer bound is explicit. A line
  number or a Content-Length above 2^53 is exact here and rounded in JavaScript; neither can match a real file or buffer.
- Node's "ascii" decoding drops the top bit of a byte; the transport model keeps that.
- A character is a Unicode scalar value; JavaScript's UTF-16 units agree on every character the code tests for.

## Where the code falls short of its own promise

- `acquireCacheLock` does not give mutual exclusion on all interleavings. The comment says that two contenders
  must not unlink a fresh claim. A reclaimer can read the holder's pid, the holder can release and exit, a third build can claim,
  and the reclaimer's liveness probe then says "dead" about a file that is no longer there. `CacheLock.StaleProbeIsReachable` is
  that run. `CacheLock.ExactCondition` names the step to blame: after any clean run, exclusion can be broken if and only if the step is a probe that
  answers "dead" while the lock file is absent or is a live claim.
- Closing a daemon connection does not abort every running request. A request sent without an id has no controller at all
  (`Cancellation.RequestWithoutIdEscapesClose`), and if an id was reused and the newer request already finished, the older one is
  no longer in the map, even when all running requests have different ids (`Cancellation.ReusedIdEscapesClose`).
  `Cancellation.CloseAbortsAllExactly` is the exact condition: every running request not yet cancelled has an id and is the latest with it.
- Deduplication takes a deletion (`lines` null or `[]`) and blanking a line (`lines` `""`) for the same edit, so the first of the
  two wins: `Edits.FirstOfOneKeyWins` for every file, `Edits.DeleteOrBlank` on one. Two edits with one key are the same
  edit if and only if their new lines agree (`Edits.EqualKeysEqualOps`), which they do when each payload is one text or a
  non-empty list of lines without line breaks. Such repeats change only the count, wherever they stand (`Edits.RepeatsAnywhere`).
- Restoring a file after canonicalising gives the text back if and only if its endings are uniform
  (`FileText.RestoreUndoesCanonicalize`); mixed endings are rewritten to the first one found (`FileText.MixedEndingsAreRewritten`).
- The daemon's startup lock excludes exactly as long as no step unlinks the claim of another live process
  (`StartupLock.ExclusionOverRuns`, `StartupLock.ExactCondition`), and that can happen: a claim whose pid is not written yet is taken for
  stale (`StartupLock.HalfWrittenClaimIsStolen`).
- At most one live process listens, whatever the lock does, exactly as long as no step unlinks the socket path of another live
  listener (`Daemons.AtMostOneListener`, `Daemons.ListenersExact`). An exclusive lock rules such steps out
  (`Daemons.ExclusiveLockSuffices`). Without one, two processes can both find the same dead owner; the second to clean up unlinks the
  socket and record of the first, which is serving by then (`Daemons.SharedLockBreaksIt`).
- Even an exclusive lock does not keep a second process from getting the lease while a first one serves. A start that throws behind
  `listen` releases the lock and leaves its server open (`Lease.ListenerStaysOpen`); when no owner record names it, the next
  start is granted the lease (`Daemons.FailedStartServesOn`). `Daemons.AtMostOneDaemon` and `Daemons.DaemonsExact`: with an exclusive lock there is at
  most one process with the lease or a server, if and only if no start fails between `listen` and its owner record.
- A start that fails or dies in that gap makes every later start fail, because binding a path that exists fails and clean-up needs
  a record: `Daemons.CanServeExactly` and `Daemons.StuckExactly` are the exact conditions.
- The sweep of other versions takes a refused signal for a process that is gone, although it found the process alive: the directory of a
  live owner is removed exactly when the last answer was a refused SIGTERM (`Reap.LiveOwnerLosesDirectory`, a visit in
  `Reap.RefusedSignalRemoves`). A server without a record, as above, does not show up in the sweep's questions at all.

## Model

| member | source | states |
|---|---|---|
| `Edits.BatchIsSimultaneous` | packages/hashline-core/src/edit-operations.ts:28-99 | a batch of fresh edits on disjoint line intervals, spliced bottom-up, equals one simultaneous edit of the original file; no-ops are exactly the replacements that give their lines back; it fails exactly when an insertion strips to nothing |
| `Edits.WholeFileEditsComeLast` | packages/hashline-core/src/edit-operations.ts:28-99 | with whole-file appends and prepends among disjoint edits, the report is the simultaneous edit with the appended texts below in order and the prepended ones above in reverse order, in closed form with both counters; it fails exactly when an insertion strips to nothing or a whole-file text is empty |
| `Edits.WholeFileTextsAreAdded` | packages/hashline-core/src/edit-operation-primitives.ts:105-125 | when the anchored edits leave more than a blank line, content is prepends in reverse, merge, appends, and no no-op is added |
| `Edits.AppendsThenPrepends` | packages/hashline-core/src/edit-operations.ts:38-44 | whole-file edits are sorted into appends and then prepends, each in the given order |
| `EditOps.AppendsRun` | packages/hashline-core/src/edit-operation-primitives.ts:105-114 | a run of appends adds its texts in order; on a file of one blank line leading blank texts are no-ops and the first real one replaces it |
| `EditOps.PrependsRun` | packages/hashline-core/src/edit-operation-primitives.ts:116-125 | the same for prepends, the last one on top |
| `Edits.OrderDoesNotMatter` | packages/hashline-core/src/edit-operations.ts:37-44 | permuting a disjoint batch changes neither content nor counters, and not whether it fails |
| `Edits.ListedEditsAreProper` | packages/hashline-core/src/validation.ts:42-65 | edits anchored by lines copied from a listing of the file are fresh and mean those lines, so such a batch only has to be disjoint |
| `Edits.RepeatsOnlyCount` | packages/hashline-core/src/edit-deduplication.ts:27-43 | in any batch, an edit whose key occurred earlier in the list changes the deduplicated count and nothing else |
| `Edits.RepeatsAnywhere` | packages/hashline-core/src/edit-deduplication.ts:27-43 | in a disjoint batch a repeat with the same key and the same new lines may be inserted anywhere and changes only the deduplicated count |
| `Edits.EqualKeysEqualOps` | packages/hashline-core/src/edit-deduplication.ts:14-25 | proper edits with one key are the same line edit if and only if their new lines agree, and always when both payloads are plain |
| `EditText.SameTextSameLines` | packages/hashline-core/src/edit-deduplication.ts:5-7 | payloads that are one text or non-empty lists without line breaks are determined by the joined text in the key |
| `Edits.DeleteAndBlankShareKey` | packages/hashline-core/src/edit-deduplication.ts:5-25 | deleting a line and blanking it are different edits with one key |
| `Edits.FirstOfOneKeyWins` | packages/hashline-core/src/edit-deduplication.ts:27-43 | on every fresh line of every file the two orders of that pair give these two reports, with different contents when the file has another line |
| `Edits.DeleteOrBlank` | packages/hashline-core/src/edit-deduplication.ts:27-43 | the two reports on one small file, with an anchor from its listing |
| `Edits.ApplyHashlineEditsWithReport` | packages/hashline-core/src/edit-operations.ts:28-99 | the engine: dedupe, sort, validate, overlap check and apply loop compute the report or the first error of the specification |
| `Edits.DedupeEdits` | packages/hashline-core/src/edit-deduplication.ts:27-43 | the loop keeps the first edit of every key, and kept plus dropped is given |
| `Edits.KeptIsOnePerKey` | packages/hashline-core/src/edit-deduplication.ts:14-43 | what is kept has every key of the list exactly once |
| `Edits.DisjointBatchIsKept` | packages/hashline-core/src/edit-deduplication.ts:14-25 | disjoint edits never share a key, so none is dropped |
| `Edits.EqualKeysEqualAnchors` | packages/hashline-core/src/edit-deduplication.ts:14-25 | a key determines the operation and the normalised anchors |
| `Edits.DetectOverlappingRanges` | packages/hashline-core/src/edit-ordering.ts:31-56 | the loops return the first clashing neighbour pair in start order |
| `Edits.OverlapIsExact` | packages/hashline-core/src/edit-ordering.ts:31-56 | looking only at neighbours finds no overlap exactly when every range ends before each one that does not start first, inverted ranges included; without inverted ones that is disjointness |
| `Edits.InvertedRangeIsRefused` | packages/hashline-core/src/edit-operations.ts:46-64 | a batch that keeps an inverted range is refused, whatever else it holds |
| `Edits.SortedBatch` | packages/hashline-core/src/edit-ordering.ts:4-15 | sorting a disjoint batch by line and precedence puts every edit above all edits applied before it |
| `Edits.SortSplits` | packages/hashline-core/src/edit-ordering.ts:4-15 | minus infinity as a line number puts whole-file edits behind all anchored ones |
| `EditOps.LoopIsMerge` | packages/hashline-core/src/edit-operations.ts:56-92 | the apply loop over edits in bottom-up order equals the single pass over the original lines, with the exact no-op count |
| `EditOps.StepReplace` | packages/hashline-core/src/edit-operation-primitives.ts:19-69 | one set or range replacement on the partly edited file adds exactly its block to the single pass |
| `EditOps.StepInsertAfter` | packages/hashline-core/src/edit-operation-primitives.ts:71-86 | one insertion after a line adds its text behind the original line, without a first line that repeats that line up to white space |
| `EditOps.StepInsertBefore` | packages/hashline-core/src/edit-operation-primitives.ts:88-103 | one insertion before a line adds its text in front, without a last line of several that repeats it, also when that line already has an insertion behind it |
| `EditOps.UncoveredLinesSurvive` | packages/hashline-core/src/edit-operation-primitives.ts:19-103 | every uncovered original line survives, and kept lines keep their order |
| `EditOps.IntervalBecomesBlock` | packages/hashline-core/src/edit-operation-primitives.ts:19-69 | every replaced interval becomes its block, computed from the original line above and the edited text below |
| `EditOps.VanishedInsertFails` | packages/hashline-core/src/edit-operation-primitives.ts:80-100 | an insertion that is only the echoed anchor line makes the batch fail |
| `EditOps.InvertedRangeFails` | packages/hashline-core/src/edit-operation-primitives.ts:50-57 | a range with start after end makes the batch fail |
| `EditText.StripLinePrefixes` | packages/hashline-core/src/edit-text-normalization.ts:15-43 | the counting loop strips copied prefixes exactly when at least half of the non-empty lines have one |
| `EditText.StripUndoesFormat` | packages/hashline-core/src/edit-text-normalization.ts:15-43 | stripping undoes formatting for every list of lines |
| `EditText.PastedListing` | packages/hashline-core/src/hash-computation.ts:23-32 | a whole listing pasted back as an edit's text gives the file's own lines |
| `EditText.RangeEchoIsExact` | packages/hashline-core/src/edit-text-normalization.ts:88-111 | a range replacement loses at most one line at each end, exactly when it is longer than its range and repeats the neighbour |
| `EditText.IndentKeepsText` | packages/hashline-core/src/edit-text-normalization.ts:52-59 | indent restoring only adds the template's leading white space |
| `Anchors.PrintedLineParses` | packages/hashline-core/src/validation.ts:22-65 | every line printed in a listing or a mismatch report parses back to its number and hash, whatever its text |
| `Anchors.RefParses` | packages/hashline-core/src/validation.ts:42-65 | a bare reference parses back |
| `Anchors.ValidateLineRefs` | packages/hashline-core/src/validation.ts:162-181 | the loop stops at the first unusable reference and otherwise reports every stale one in order |
| `Anchors.ValidMeansFresh` | packages/hashline-core/src/validation.ts:162-181 | validation passes exactly when every reference names an existing line with a matching hash |
| `Anchors.RepairedRefsAreFresh` | packages/hashline-core/src/validation.ts:82-97 | after swapping in the remaps of a mismatch error the same validation passes |
| `LineHash.LineHashesAreDictionary` | packages/hashline-core/src/hash-computation.ts:7-21 | the current and the legacy hash are two-letter dictionary entries |
| `LineHash.EntriesDiffer` | packages/hashline-core/src/constants.ts:1-7 | the dictionary is injective |
| `LineHash.TrailingSpaceKeepsHash` | packages/hashline-core/src/hash-computation.ts:15-17 | trailing white space and carriage returns do not change a line's hash |
| `Xxh32.XxHash32Js` | packages/hashline-core/src/xxhash32.ts:31-81 | for every input and seed the JavaScript loops compute XXH32 as in the xxHash specification; reads stay in bounds and sums stay safe integers |
| `Xxh32.Accumulate` | packages/hashline-core/src/xxhash32.ts:36-57 | the stripe loop and convergence give the specification's accumulator and remainder |
| `Xxh32.RotateIsRotl` | packages/hashline-core/src/xxhash32.ts:12-14 | shift-and-or on signed 32-bit integers is rotation modulo 2^32 |
| `Xxh32.ReadIsLane` | packages/hashline-core/src/xxhash32.ts:16-24 | the or-ed bytes are the little-endian lane |
| `Xxh32.RoundIsStep` | packages/hashline-core/src/xxhash32.ts:26-29 | one round in JavaScript is one round of the specification |
| `Stream.StreamHashLines` | packages/hashline-core/src/hash-computation.ts:62-123 | for every split of a text into chunks the joined pieces are the batch listing, and every piece is a run of listed lines within both limits or a single line |
| `Stream.BatchListing` | packages/hashline-core/src/hash-computation.ts:28-32 | numbered from 1 that listing is `formatHashLines` |
| `Stream.HashlineStream.ConsumeText` | packages/hashline-core/src/hash-computation.ts:84-103 | exactly the completed lines are pushed and the rest stays pending |
| `Stream.HashlineStream.PushLine` | packages/hashline-core/src/hash-computation.ts:78-82 | a line is formatted with the next number and handed to the formatter |
| `Stream.HashlineStream.Finish` | packages/hashline-core/src/hash-computation.ts:115-122 | the last line is pushed exactly when there was text, and the buffer is flushed |
| `Stream.ChunkFormatter.Push` | packages/hashline-core/src/hashline-chunk-formatter.ts:24-46 | chunks are runs of buffered lines that fit the limits; nothing is lost or reordered |
| `Stream.ChunkFormatter.Flush` | packages/hashline-core/src/hashline-chunk-formatter.ts:16-22 | flushing hands over everything buffered |
| `FileText.RestoreUndoesCanonicalize` | packages/hashline-core/src/file-text-canonicalization.ts:31-44 | restore after canonicalise is the identity if and only if endings are all LF or all CRLF, with or without BOM |
| `FileText.MixedEndingsAreRewritten` | packages/hashline-core/src/file-text-canonicalization.ts:31-44 | a concrete text with both endings that comes back changed |
| `FileText.CanonicalLines` | packages/hashline-core/src/file-text-canonicalization.ts:22-38 | the canonical form has no CR and the lines of the text under CRLF, CR and LF |
| `LineDiff.CountLineDiffs` | packages/hashline-core/src/diff-utils.ts:22-53 | additions and deletions are the two bag differences of the lines |
| `LineDiff.NoDiffIsSmaller` | packages/hashline-core/src/diff-utils.ts:22-53 | no diff built on a common subsequence has fewer additions or deletions |
| `LineDiff.Balance` | packages/hashline-core/src/diff-utils.ts:22-53 | additions minus deletions is the change in length |
| `Transport.ReadStdioMessages` | packages/mcp-stdio-core/src/transport.ts:27-44 | the messages depend on the concatenation of the chunks only |
| `Transport.ReadIsStable` | packages/mcp-stdio-core/src/transport.ts:90-136 | a complete parse of a buffer stays the same parse when bytes are appended |
| `Transport.ReadShrinks` | packages/mcp-stdio-core/src/transport.ts:90-136 | a completed read shrinks the buffer |
| `Transport.DrainAppend` | packages/mcp-stdio-core/src/transport.ts:30-38 | draining after more bytes continues where draining stopped |
| `Transport.RoundTrip` | packages/mcp-stdio-core/src/transport.ts:46-57 | any list of bodies written in mixed modes reads back as that list with those modes, under every split of the bytes |
| `Transport.ReadUndoesWrite` | packages/mcp-stdio-core/src/transport.ts:46-57 | reading right after one written message gives it back and leaves the rest |
| `Transport.HeaderParses` | packages/mcp-stdio-core/src/transport.ts:143-152 | a written Content-Length header parses to the body length |
| `Transport.BlankLineIsSkipped` | packages/mcp-stdio-core/src/transport.ts:95-107 | blank lines give no message and disturb nothing |
| `Transport.BadHeaderIsReported` | packages/mcp-stdio-core/src/transport.ts:109-126 | a header block of any number of lines without a length costs one framed parse error, and reading resumes behind the first separator |
| `Transport.HighBitsBreakLines` | packages/mcp-stdio-core/src/transport.ts:114-144 | header bytes are decoded before they are split, so the bytes 8D 8A end a header line like CR LF |
| `CacheLock.MutualExclusionOverRuns` | script/build-omob.ts:139-175 | over all interleavings, crashes and pid reuse without a stale probe, at most one process holds the lock, reclaimers unlink leftovers only and a release removes its own lock only |
| `CacheLock.StepKeeps` | script/build-omob.ts:139-175 | every atomic step keeps the invariant, and only a stale probe leaves the safe states |
| `CacheLock.ExactCondition` | script/build-omob.ts:149-158 | a step is a stale probe if and only if exclusion can then be broken without another one |
| `CacheLock.StaleProbeIsReachable` | script/build-omob.ts:152-157 | a concrete run that ends in such a probe |
| `Scheduler.RunGraph` | script/build.ts:86-122 | for every graph, limit and completion order: a legal trace; rejection exactly when a node failed; otherwise exactly the nodes with a closed acyclic cone are done, and completion if and only if that is all of them and ids are distinct |
| `Scheduler.LaunchReady` | script/build.ts:96-106 | the launch loop starts ready nodes up to the limit and leaves none behind below it |
| `Scheduler.SettleBatch` | script/build.ts:102-111 | a success moves a node to done, a failure keeps it in the running map |
| `Scheduler.StartsOnce` | script/build.ts:96-106 | a node starts at most once |
| `Scheduler.DependenciesFirst` | script/build.ts:100-102 | a node starts only after all its dependencies started and finished |
| `Scheduler.LimitHolds` | script/build.ts:90-98 | the running map never exceeds the limit |
| `Scheduler.FailedBlocksDependents` | script/build.ts:100-105 | dependents of a failed node never start |
| `Scheduler.StuckDoneIsSound` | script/build.ts:107-109 | when nothing is ready, done is exactly the set of nodes whose dependency cone is closed and acyclic |
| `Collector.CollectorIsHonest` | packages/ast-grep-mcp/src/sg-runner.ts:124-237 | over every event sequence a result's records are a prefix of the object lines within both limits, its count is a true lower bound, and "not truncated" means every non-blank line is a record |
| `Collector.RunKeeps` | packages/ast-grep-mcp/src/sg-runner.ts:169-180 | after any events the collector has read exactly a run of complete stdout lines, or met a limit, or is bound to fail |
| `Collector.SgCollector.ReadLine` | packages/ast-grep-mcp/src/sg-runner.ts:124-162 | one line updates records, budgets and reasons as specified |
| `Collector.SgCollector.HandleData` | packages/ast-grep-mcp/src/sg-runner.ts:169-180 | the data handler's loop drains complete lines and checks the pending size |
| `Collector.SgCollector.HandleClose` | packages/ast-grep-mcp/src/sg-runner.ts:206-237 | the close handler's order of failures and the summary it resolves with |
| `Utf8.TruncateUtf8` | packages/ast-grep-mcp/src/sg-runner.ts:61-67 | the longest whole-character prefix within the byte budget |
| `Utf8.LastWholeIsUnique` | packages/ast-grep-mcp/src/sg-runner.ts:61-67 | there is one longest whole-character prefix |
| `Utf8.DecodeStderr` | packages/ast-grep-mcp/src/sg-runner.ts:69-76 | on a byte prefix of valid UTF-8 the result is its whole characters, without a byte order mark, cut to the longest whole prefix within the cap; within the cap nothing is cut |
| `Utf8.DropIncomplete` | packages/ast-grep-mcp/src/sg-runner.ts:69-75 | the loop and the width table drop exactly the trailing incomplete character |
| `Plan.FencedTextIsInvisible` | packages/boulder-state/src/plan-checklist.ts:50-163 | inserting the text of a closed fenced block between two lines outside a fence changes neither the checklist nor the current task, with LF or CRLF line ends |
| `Plan.FencedBlocksAreInvisible` | packages/boulder-state/src/plan-checklist.ts:50-163 | on the list of lines, inserting a closed fenced block outside a fence changes neither the checklist nor the current task |
| `Plan.TickNextLowers` | packages/boulder-state/src/plan-checklist.ts:68-173 | ticking the next box lowers remaining by one and keeps the total |
| `Plan.TickingFinishes` | packages/boulder-state/src/plan-checklist.ts:68-173 | repeating it reaches "no task" in exactly `remaining` steps |
| `Plan.ChecklistAddsUp` | packages/boulder-state/src/plan-checklist.ts:115-162 | completed plus remaining is total, and a next label exists exactly while something remains |
| `Plan.ViewsAgree` | packages/boulder-state/src/plan-checklist.ts:50-124 | in structured plans both views name the same next task |
| `Plan.ScanPlan` | packages/boulder-state/src/plan-checklist.ts:68-163 | the scan loops compute the checklist and next task of the counted boxes |
| `Cancellation.MapIsExact` | packages/lsp-daemon/src/request-routing.ts:52-84 | over all interleavings with reused and missing ids, a key has an entry exactly when its latest request is unfinished, and the entry is that request |
| `Cancellation.EmptyWhenIdle` | packages/lsp-daemon/src/request-routing.ts:75-83 | the map is empty exactly when every request that is the latest with its id has finished |
| `Cancellation.CancelHitsLatest` | packages/lsp-daemon/src/request-routing.ts:52-56 | a cancel aborts exactly the latest running request with that id |
| `Cancellation.CloseAbortsAllExactly` | packages/lsp-daemon/src/daemon-server.ts:62-67 | closing leaves no running request alive if and only if every running request not yet cancelled has an id and is the latest with it |
| `Cancellation.ReusedIdEscapesClose` | packages/lsp-daemon/src/daemon-server.ts:62-67 | a run where running ids are distinct and closing misses a request |
| `Cancellation.RequestWithoutIdEscapesClose` | packages/lsp-daemon/src/request-routing.ts:69-73 | a run with a single request, sent without an id, that closing misses |
| `Cancellation.NoKeyNoAbort` | packages/lsp-daemon/src/request-routing.ts:69-73 | in no run does a cancel or a close reach a request without an id |
| `Cancellation.Connection.Register` | packages/lsp-daemon/src/request-routing.ts:68-77 | a request's controller replaces any entry of its key; a request without a key leaves the map alone |
| `Cancellation.Connection.Finished` | packages/lsp-daemon/src/request-routing.ts:81-83 | a finished request removes only its own entry |
| `Cancellation.Connection.CancelRequest` | packages/lsp-daemon/src/request-routing.ts:52-56 | the entry's controller is aborted |
| `Cancellation.Connection.CloseSocket` | packages/lsp-daemon/src/daemon-server.ts:62-67 | every controller in the map is aborted and the map is cleared |
| `Lease.LeaseIsJustified` | packages/lsp-daemon/src/ownership.ts:54-72 | against every environment, throwing calls included: a lease needs an empty owner file, or one owner read twice with a silent ping and a dead pid in between, then cleaned up and the token rotated; metadata is removed in that case only; the lock goes to the lease or is released once; "already running" means an answer |
| `Lease.LockIsAlwaysReleased` | packages/lsp-daemon/src/daemon-server.ts:43-83 | starting the server releases a taken lock exactly once, on success and on failure, and returns a handle only after it answered its own ping with what it wrote |
| `Lease.ListenerStaysOpen` | packages/lsp-daemon/src/daemon-server.ts:72-83 | a start that throws leaves its listener open if and only if it had opened one, and one that no record names exactly when it failed right behind `listen` |
| `Lease.ValidateOwnerIsSound` | packages/lsp-daemon/src/ownership.ts:130-154 | each verdict on the existing owner is backed by the last answers, and only a proved-dead owner is cleaned up |
| `Lease.Startup.ValidateExistingOwner` | packages/lsp-daemon/src/ownership.ts:130-154 | the retry loop makes the calls and gives the verdict of the specification |
| `Lease.Startup.AcquireStartupLease` | packages/lsp-daemon/src/ownership.ts:54-72 | lock, validation and release make the calls and give the outcome of the specification |
| `Lease.Startup.StartDaemonServer` | packages/lsp-daemon/src/daemon-server.ts:43-83 | listening, recording, self probe and release as specified; the result says whether the server was left open |
| `Daemons.AtMostOneListener` | packages/lsp-daemon/src/daemon-server.ts:72-97 | over all interleavings of starts, failing starts, closes, crashes and reused pids, and with any lock, at most one live process listens as long as no step unlinks the path of another live listener |
| `Daemons.ListenersExact` | packages/lsp-daemon/src/ownership.ts:156-164 | after any such run, a step is such an unlink if and only if two processes can then come to listen without another one |
| `Daemons.ExclusiveLockSuffices` | packages/lsp-daemon/src/ownership.ts:130-164 | with an exclusive lock no step unlinks the path of another live listener, so one process listens at most, failing starts included |
| `Daemons.AtMostOneDaemon` | packages/lsp-daemon/src/ownership.ts:54-164 | with an exclusive lock and no start failing between `listen` and its owner record, at most one live process has the lease, serves or is shutting down |
| `Daemons.DaemonsExact` | packages/lsp-daemon/src/daemon-server.ts:72-83 | after any such run, a step is such a failure if and only if two processes can then have the lease or a server without another one |
| `Daemons.StepKeeps` | packages/lsp-daemon/src/ownership.ts:130-164 | with an exclusive lock every step of every process keeps the invariant, failing starts that serve on included |
| `Daemons.RecordIsSafe` | packages/lsp-daemon/src/ownership.ts:94-101 | the record of a live daemon changes only when that daemon unlinks it itself |
| `Daemons.UnlinksAreJustified` | packages/lsp-daemon/src/ownership.ts:94-164 | closing unlinks with one's own record in place, and clean-up the socket and record of a dead daemon, although neither checks at the moment of the unlink |
| `Daemons.SharedLockBreaksIt` | packages/lsp-daemon/src/ownership.ts:130-164 | a run of two processes let in behind a crashed daemon: one serves, the other cleans up its socket and record and serves, too |
| `Daemons.FailedStartServesOn` | packages/lsp-daemon/src/daemon-server.ts:72-83 | a run where a start fails behind `listen`, serves on, and the next start gets the lease |
| `Daemons.CanServeExactly` | packages/lsp-daemon/src/daemon-server.ts:72-83 | after any run with an exclusive lock a daemon can still come to serve if and only if there is an owner record, the socket path is free, or an unfinished start holds it |
| `Daemons.StuckExactly` | packages/lsp-daemon/src/daemon-server.ts:72-83 | a step makes every later start fail if and only if a process fails or dies between `listen` and its owner record |
| `StartupLock.ExclusionOverRuns` | packages/lsp-daemon/src/lock.ts:28-64 | over all interleavings of create, write, read, probe, unlink and release with crashes, as long as no live claim of another process is unlinked, at most one live process holds the lock |
| `StartupLock.ExactCondition` | packages/lsp-daemon/src/lock.ts:50-55 | after any such run, a step unlinks a live claim if and only if the lock can then be broken without another such step |
| `StartupLock.HalfWrittenClaimIsStolen` | packages/lsp-daemon/src/lock.ts:38-55 | a run in which a claim without its pid is unlinked as stale |
| `Reap.SweepIsSafe` | packages/lsp-daemon/src/version-reap.ts:57-186 | over any entries and answers every visit is to a sibling's directory, a signal goes only to its owner, found alive and then attested, never on Windows, SIGKILL only behind a delivered SIGTERM and a failed wait, a removal only behind no readable owner and no live lock holder, or an owner found dead, refusing SIGTERM or seen to exit; unless a removal throws, every sibling is visited |
| `Reap.LiveOwnerLosesDirectory` | packages/lsp-daemon/src/version-reap.ts:161-170 | a removal hits an owner that was found alive and not seen to exit if and only if its last answer was a refused SIGTERM |
| `Reap.RefusedSignalRemoves` | packages/lsp-daemon/src/version-reap.ts:227-234 | such a visit, reported as removed |
| `Reap.VisitIsSafe` | packages/lsp-daemon/src/version-reap.ts:118-186 | the same for one version, and its status is true of its events: spared and deferred remove nothing, terminated means that the exit was seen |
| `Reap.OwnVersionStays` | packages/lsp-daemon/src/version-reap.ts:73-99 | the own version's directory is never removed, and what is removed is a version directory right under the base directory |
| `Reap.ReportIsTrue` | packages/lsp-daemon/src/version-reap.ts:72-100 | a directory reported as spared or deferred is removed nowhere in the sweep, one reported as removed or terminated is removed |
| `Reap.System.TerminateAttestedOwner` | packages/lsp-daemon/src/version-reap.ts:161-186 | signals, waits and removal in the specified order |
| `Reap.System.ReapOneVersion` | packages/lsp-daemon/src/version-reap.ts:118-159 | one version's questions, effects and status as specified |
| `Reap.System.ReapStaleDaemonVersions` | packages/lsp-daemon/src/version-reap.ts:57-100 | the loop's effects and results are those of the specified sweep, which ends at the first removal that throws |

## Left out

- Edits.BatchIsSimultaneous: batches where a single-line edit lies inside a range, or a replacement and an insertion share a line, are not covered; the overlap check does not look at them either, and the result then depends on the splice order.
- Edits.RepeatsAnywhere: stated for disjoint batches; in others the earlier place of the kept edit can change the order of two edits on one line.
- CacheLock.MutualExclusionOverRuns: the pid is written in one atomic step after the file is created, so a partly written pid is not modelled.
- Xxh32.XxHash32Js: inputs longer than 2^53 - 2^32 bytes are outside the safe-integer claim.
- Stream.StreamHashLines: chunks are decoded text; the byte order mark that a `TextDecoder` drops is not modelled.
- `autocorrect-replacement-lines.ts`: regular-expression heuristics, a parameter here.
- Daemons.AtMostOneDaemon: a start that fails between `listen` and its owner record is excluded, and `Daemons.DaemonsExact` shows that it has to be; the lock is assumed exclusive, for which `StartupLock` gives the exact condition.
- Daemons.StepKeeps: only daemons write the owner file, and the socket is a Unix path; arbitrary file changes are the subject of `Lease`, and a Windows pipe name vanishes with its process.
- Reap.SweepIsSafe: how a command line is attested is an answer of the environment, and entries come in any order instead of `localeCompare` order.
- `socket-jsonrpc.ts`: it decodes each chunk separately, so chunk independence holds for text chunks only.
- Error message texts, log lines, telemetry, prompts, installers and model tables.
