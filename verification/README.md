# Tollpike: a verified model of the audit log, the translators and the compression pipeline

Tollpike is a gateway between coding agents and model providers. This project
models the parts of it whose correctness is hardest to see by reading, and
proves what they promise.

- **The audit log** (`Text`, `Chain`, `AuditLog`, `RowText`, `LockTurns`,
  `Protocol`, `Forks`, `Heads`, `Overtaken`, `LockTiming`, `AuditSafety`,
  `ForkRun`, `Tamper`, `Forgery`). A
  hash-chained file that several processes append to, with a sidecar anchor.
  `Chain` has `verifyAudit`; `AuditLog` has the file down to single characters
  and one process's `appendEvent` as a class; `LockTurns` has `acquireLock`.
  `Protocol` is the state machine of any number of processes, one look at a
  shared file at a time: waiting, taking over a stale lock file, going on
  without the lock, reading, sampling the size, writing, tearing a line, losing
  an anchor, crashing. `Forks` says what `verifyAudit` reports in every run,
  `Heads` and `Overtaken` when an append breaks the chain, `LockTiming` which steps let a second
  process in and what the clock rules out, and `AuditSafety` what holds while
  none does. `ForkRun` is one run in which two processes fork the chain. `Tamper` says what is detected when somebody else wrote the file,
  and `Forgery` that without the secret nothing but what the gateway wrote passes.
- **The compression pipeline** (`BasePass`, `Fences`, `FenceText`, `Truncation`,
  `Windows`, `Phrases`, `PhraseTables`, `Caveman`, `CavemanLine`):
  the linear whitespace pass against the regular expressions it took the place
  of, the fence scanner and what it does on the text itself (`FenceText`), history
  truncation and what it keeps in roles and ids (`Windows`), and the lossy prose pass: its
  phrase tables (`Phrases` for any table, `PhraseTables` for the two there are),
  the dropping of words (`Caveman`) and what stands between protected segments
  (`CavemanLine`).
- **The dialect translators** (`AnthropicStream`, `StreamClient`, `Buffered`,
  `Labels`, `Places`, `Collected`, `Alignment`, `Refinement`, `Endings`,
  `AnthropicMessages`, `AnthropicHistory`, `OllamaMessages`, `OllamaHistory`,
  `OllamaStream`): streams as state machines, judged by what a
  client makes of them, and compared with the whole answer. `Collected` is that
  answer as the router puts it together, each call at the place its fragments name;
  `Alignment` says when the keys of the Anthropic stream tell the same calls apart,
  and `Refinement` when its client ends up with the same. `Endings` says on the wire's own
  words what either message says at its end and in each block. Message histories are
  judged by tool-call pairing, and by what is said, called and answered in them
  (`AnthropicHistory`, `OllamaHistory`).
- **Two stateful parts of the audit layer** (`AuthWindow`, `Conversation`).

Code that updates state in the source is a class or a method with a loop here,
proved equal to a function; the properties are lemmas about that function.

## What is assumed

- A digest is injective in its key, the previous head and the payload: heads
  are a datatype. Comparison ignores the letter case of hex text, as the source
  does, so a digest carries a number for its spelling.
- JSON text of a row is one line that starts with its brace and parses back to
  the row; text glued together from the beginnings of rows parses only when it is
  one whole row (`AuditLog.Faithful`). `RowText.FaithfulFormatExists` gives a
  format with these properties.
- A tag over a count and a head is made with the key only; without it one can copy a
  tag or make up one that fits nothing (`Forgery.Forgeable`).
- All processes have the same key, and read one clock, which does not go back. A
  file is a sequence of characters; a torn multi-byte character is not told apart
  from a torn line.
- One append reaches the file in one piece, whole or cut short, at the end the
  file then has. Replacing the anchor is one step.
- Where a statement says so (`LockTiming.Prompt`): while the process that made the
  lock file is inside appendEvent the file does not get older than ten seconds,
  as the source's comment on `LOCK_STALE_MS` has it.

## Where the code does not do what its comments say

- `basePass` is said to give the same output as the two regular expressions. It
  does exactly when the last line has no trailing spaces and neither end of the
  text has two blank lines (`BasePass.LinearMatchesRegexIff`).
- A block is closed before the next opens, but a later fragment of an earlier
  call is still sent to its closed block (`StreamClient.DeltasNameOpenBlockIff`
  says exactly when). What is sent for a key still ends up in the block of that key
  (`Buffered.BlocksConserve`).
- Keys are said to be the calls' indices or ids. A fragment with neither takes the
  number of keys met, which a later fragment may name as its index: after calls at
  index 5 and at none, one at index 1 is merged into the second's block
  (`Refinement.LateIndexIsMerged`). `Alignment.KeptApartIff` says exactly when no
  block holds fragments of two calls, and `Alignment.SameCallsIff` when each holds
  its own call's and all of them.
- Appends are said to be one at a time, but for a fork when the lock cannot be had
  in two seconds. Looking at a lock file's age and removing it are two steps,
  though: a crash and two waiters are enough for two processes to hold the lock at
  once, each prompt and none giving up (`LockTiming.TwoHolders`).
  `LockTiming.AlwaysGuardedIff` and `LockTiming.PromptGuardedIff` say exactly when
  it does not happen. In either case `verifyAudit` reports the rows that fork the
  chain, and no others (`Forks.BrokenIffTornOrStale`).
- No level of caveman is said to remove a word of `NEVER_DROP`. The filler
  phrases do: "it should be noted that" takes its "should" along
  (`PhraseTables.FillerDropsShould`). Nor is it enough that no such phrase stands
  in the line: the rewrites run first and can make one, so "i would like in order
  to go" loses its "would" (`PhraseTables.RewriteMakesLoser`). After both tables
  every word of `NEVER_DROP` is there as often as in the line and in what the
  rewrites brought in ("if", "because", "can", "before" and "after" only), if and
  only if none of the seven filler phrases with that word stands in the line once
  rewritten; else less often (`PhraseTables.BothTablesBalance`,
  `PhraseTables.BothTablesKeepIff`). The rewrites themselves never take one
  (`PhraseTables.RewritesKeepProtected`).
- Stops on a dropped word are said to survive. They do if and only if no dropped
  word with stops stands before the first word kept (`Caveman.StopsCarriedIff`).
- A row without a string `h` splits `load` and `verifyAudit`: they find different
  heads if and only if the last row has none (`AuditLog.LoadAgreesWithVerifyIff`).
- `verifyAudit` throws on a line that is the literal `null` (`Chain.VerifyAudit`).
- A process that appends after another one's row has landed unseen goes on with a
  count that is too low. Every anchor it writes until it reads the file again is
  reported as a rollback, and no other anchor is
  (`Overtaken.MiscountReportedAsRollback`); the row is a break
  (`Overtaken.AppendBreaksIff`). An append without the lock that nobody overtook
  does neither. It takes no crash: in `ForkRun.HolderIsOvertaken` a holder is slow
  for two seconds, a waiter goes on without the lock, and it is the holder, which
  had the lock, whose row breaks and whose anchor is taken for a rollback.
- Ollama ids that the client gives itself can collide with made-up ones
  (`OllamaMessages.SuppliedIdCollides`), and a result's own id is not looked at when
  a call is taken off the list, so two results can carry one id
  (`OllamaMessages.GivenIdIsNotMatched`). `OllamaMessages.CallIdsDistinctIff` and
  `OllamaMessages.ResultIdsDistinctIff` say exactly when ids are distinct, on every
  history.
- A fragment whose index is no array index is never sent; what is sent and what is
  lost is `OllamaStream.SentAndLost`, and the stream is the whole answer if and only
  if all fragments fit (`OllamaStream.StreamMatchesResponseIff`), which the indices
  they name decide (`OllamaStream.AllFitIff`).
- The stream is meant to be the answer in pieces. Its client ends up with that answer
  if and only if no text follows a call, keys and places tell the same calls apart and
  meet them in one order, headers come whole, and no text follows the last count, but
  for calls that look alike (`Refinement.StreamMatchesBufferedIff`). Those are ruled
  out when each call starts with an id of its own (`Refinement.ToldApartMatchesIff`);
  without ids they exist (`Refinement.LookAlikesExist`). So two whole calls in one
  delta, index 1 before index 0, come out in the wrong order
  (`Refinement.OrderShows`).

## Model

| member | source | states |
|---|---|---|
| `Chain.VerifyAudit` | src/audit/log.js:205-268 | the report of the walk over the file, field by field; it throws exactly when some line is `null` |
| `Chain.BrokenAtMembers` | src/audit/log.js:215-230 | the broken list is exactly the lines that do not chain from the lines before them, in file order |
| `AuditLog.Writer.LoadHead` | src/audit/log.js:62-73 | walking back finds the last line that carries a string `h`, else the genesis head |
| `AuditLog.Writer.Load` | src/audit/log.js:59-76 | a cached state is kept; otherwise head, count and size come from the file |
| `AuditLog.Writer.EndsWithNewline` | src/audit/log.js:143-157 | true exactly when the next row needs no leading newline |
| `AuditLog.Writer.AppendEvent` | src/audit/log.js:111-141 | file, cache, anchor and failure count after a complete or a failed write, from a cache refreshed when the size moved |
| `AuditLog.WriteLands` | src/audit/log.js:125-129 | whatever prefix of a write lands, and wherever the file ends by then: the finished lines stay, and the row gets a line of its own, whole or torn, or is lost with the unfinished line it is glued to |
| `AuditLog.TornAppend` | src/audit/log.js:125-132 | with the leading newline chosen for the file as it is, earlier lines stay whatever prefix of the write lands, and at most one line is added, unparsable exactly when the row's text is cut |
| `AuditLog.LoadAgreesWithVerifyIff` | src/audit/log.js:63-74 | load and verify find the same head of a file if and only if its last row, if it has rows, carries a hash |
| `AuditLog.AppendAfterLoadIff` | src/audit/log.js:226-228 | an append from the head load finds is itself reported as a break if and only if that row has none |
| `RowText.FaithfulFormatExists` | src/audit/log.js:129-129 | a row format with the assumed properties exists |
| `Forks.BrokenIffTornOrStale` | src/audit/log.js:159-163 | in every run of any processes, with the lock, after a takeover or without it: the lines reported as broken are exactly the torn ones and the rows appended from a head no longer current; torn lines are at most the writes cut short |
| `Forks.FinishedLinesStay` | src/audit/log.js:12-15 | no run, whoever holds the lock, loses or changes a line that a newline has finished |
| `Forks.NeverTruncated` | src/audit/log.js:130-133 | no run is reported as truncated: no anchor counts more lines than there are, torn and glued lines, forks and miscounts included |
| `Heads.AppendBreaksIff` | src/audit/log.js:120-129 | in every run, torn writes and repeated payloads included: an appended row that gets a line of its own breaks the chain if and only if the last row of the file is not the one its process last read there or appended itself; one that does not is lost with the unfinished line it is glued to |
| `Heads.UnfinishedRowIsLost` | src/audit/log.js:125-128 | a whole row that lacks its newline is lost when another process's text is glued to it: the last row of the file is then the one before, though no row has landed |
| `Overtaken.BrokenIffOvertaken` | src/audit/log.js:33-42 | when every write lands whole or not at all, the breaks reported are exactly the rows of processes that had not seen the file's last row, in every interleaving of reads, size samples, writes and crashes |
| `Overtaken.AppendBreaksIff` | src/audit/log.js:120-129 | when writes land whole or not at all and payloads are new: the row a process appends is reported as a break if and only if another row has landed since it last read the file or appended |
| `Overtaken.MiscountReportedAsRollback` | src/audit/log.js:130-133 | when writes land whole or not at all and payloads are new: an anchor a process writes is reported as a rollback, then and however far the file grows, if and only if the process has appended while overtaken since it last read the file |
| `ForkRun.HolderIsOvertaken` | src/audit/log.js:178-181 | a run without a crash in which a waiter goes on without the lock and the holder then appends: one break, at the holder's row, and the holder's anchor is reported as a rollback |
| `AuditSafety.StepKeepsInv` | src/audit/log.js:111-195 | every step that leaves the lock guarded keeps: lines chained or torn, events complete and in order, what each process knows of the file right, the anchor a witness |
| `AuditSafety.HonestLogVerifies` | src/audit/log.js:205-248 | in every state of every run without an intrusion only torn lines are reported; never a truncation or rollback; intact unless a line is torn or the first anchor is missing; the file holds exactly the landed events in order |
| `AuditSafety.FirstRowUnanchored` | src/audit/log.js:241-246 | a guarded run in which the only process crashes after the first row and before any anchor is reported as not intact, with no line torn |
| `AuditSafety.RunAppends` | src/audit/log.js:12-15 | over any run the lines only grow, the anchor never moves back, and torn lines are at most the writes cut short |
| `AuditSafety.CutReportedIffAnchored` | src/audit/log.js:235-240 | cutting an honest file, torn lines and all, is a truncation if and only if the cut reaches into the anchored part; else it is intact if and only if no line left is torn |
| `AuditSafety.OldCopies` | README.md:988-992 | an old file with its old anchor is accepted if and only if no line of it is torn; under today's anchor if and only if, moreover, the anchor fits it, and it is a truncation if and only if the anchor counts further |
| `AuditSafety.AnchoredPartIsHonest` | src/audit/log.js:201-204 | any file intact against an honest anchor equals the honest file in the anchored part, which then has no torn line |
| `AuditSafety.SomeFileFitsIff` | src/audit/log.js:201-204 | some file is intact against an honest anchor if and only if no line it covers is torn |
| `AuditSafety.AppendEventIsItsSteps` | src/audit/log.js:119-133 | checking the size, reading, sampling it, preparing, writing, sampling it again and anchoring as protocol steps do what appendEvent does |
| `AuditSafety.FailedAppendIsItsSteps` | src/audit/log.js:134-139 | and so when the write fails with some of it landed |
| `LockTurns.AcquireLock` | src/audit/log.js:168-195 | stops at the first turn that creates the file, is refused or comes more than two seconds after the start, holds the lock exactly when it created the file, removes a file after exactly the turns that saw it more than ten seconds old |
| `LockTurns.OneOutcome` | src/audit/log.js:168-195 | the answers to the turns settle where it stops, whether it holds the lock and after which turns it removed a file |
| `LockTiming.TurnsAreAcquireLock` | src/audit/log.js:168-195 | in every run of the protocol each process had the turns, removed the files and holds the lock as acquireLock does on the answers it got |
| `LockTiming.AlwaysGuardedIff` | src/audit/log.js:117-121 | every process inside holds the lock, with its own lock file in place, all along a run, if and only if no process goes on without the lock and none removes a lock file in use |
| `LockTiming.NoTwoInside` | src/audit/log.js:117-121 | in a run without such a step no two processes are ever inside at once |
| `LockTiming.PromptGuardedIff` | src/audit/log.js:159-163 | with running processes prompt and none going on without the lock, a run is guarded all along if and only if no process removes, in place of the stale file it looked at, a newer one in use |
| `LockTiming.RemoverGetsIn` | src/audit/log.js:183-187 | removing a lock file in use lets a second process in at its next turn |
| `LockTiming.LockFilesConserved` | src/audit/log.js:168-195 | over any run the lock files made are those there and those taken away, by a process that found one stale or by one that got the lock: none is made over another, goes with a crash or is taken by a process that went on without the lock |
| `LockTiming.TwoHolders` | src/audit/log.js:183-187 | a crash and two waiters are enough for two holders at once, every process prompt and none going on without the lock |
| `Tamper.IntactFilesAgree` | src/audit/log.js:205-248 | two files intact against one anchor hold the same rows in the anchored part |
| `Tamper.EditsReportedExactly` | src/audit/log.js:224-228 | changing payloads under kept hashes is reported at exactly the changed rows |
| `Tamper.VerdictIsLocal` | src/audit/log.js:215-229 | the verdict on a line depends on that line and on the lines back to the nearest row with a hash only |
| `Tamper.StaleAppend` | src/audit/log.js:159-163 | an append from any head is a break, at exactly its row, if and only if that head is not current |
| `Forgery.VerdictNeedsTag` | src/audit/log.js:235-248 | under a key an anchor whose tag is not over its own count and head is never the ground for intact, truncated or rolled back |
| `Forgery.VerdictNeedsAnchor` | src/audit/log.js:241-248 | without an anchor a file is intact if and only if it is empty, key or no key |
| `Forgery.ForgeryIsReported` | src/audit/log.js:201-204 | whatever file and anchor, tag made up or copied from any anchor that was ever on the disk, are put in place of those of a guarded run: if the report is intact under the key, the anchor is one the run wrote and all the lines it counts are the run's |
| `Forgery.RowsAreKeyed` | src/security/chain.js:26-49 | in a file without breaks every line carries a digest, under the key, of its own payload behind the hash stored before it |
| `Forgery.RespelledHash` | src/security/chain.js:47-49 | respelling the letters of a stored hash is no break at its own row and exactly one, at the next |
| `BasePass.TrimTrailingHorizontal` | src/compression/rtk.js:134-142 | the line without its trailing spaces and tabs |
| `BasePass.BasePass` | src/compression/compress.js:67-91 | the loop computes the pass |
| `BasePass.BaseShape` | src/compression/compress.js:67-91 | no trailing spaces or tabs, no two empty lines in a row, every line with text kept in order |
| `BasePass.BaseIdempotent` | src/compression/compress.js:67-91 | a second pass changes nothing |
| `BasePass.LinearMatchesRegexIff` | src/compression/compress.js:51-66 | equal to the two regular expressions if and only if both ends of the text are clean |
| `BasePass.TrailingSpaceDiffers` | src/compression/compress.js:51-66 | so they differ on every text that ends in a space |
| `Fences.OutsideFencesLoop` | src/compression/compress.js:97-112 | the scan loop applies the function outside the fences only, for every function |
| `Fences.IdentityChangesNothing` | src/compression/compress.js:97-112 | with the identity function the text is unchanged |
| `Fences.FencesSurvive` | src/compression/compress.js:93-96 | every fence, closed or not, comes through byte-exact and in order |
| `Fences.CompressTwice` | src/compression/compress.js:246-260 | the second of the two passes is the identity on every text |
| `FenceText.ClosedFence` | src/compression/compress.js:96-112 | for any function, on any text split at its first fence of either kind, that closed by the next triple of its kind: only the text up to the spaces and tabs before the fence is handed on, the fence stays byte for byte, and what follows is dealt with by itself |
| `FenceText.UnclosedFence` | src/compression/compress.js:94-96 | a fence that is never closed keeps everything to the end |
| `FenceText.PlainText` | src/compression/compress.js:98-98 | text without a triple of either kind is handed on whole |
| `FenceText.EveryText` | src/compression/compress.js:96-96 | every text is of one of these three forms |
| `FenceText.CompressAroundFence` | src/compression/compress.js:246-260 | compressText compresses what is around a fence and leaves the fence, closed or not, byte for byte |
| `Truncation.Truncate` | src/compression/compress.js:227-243 | the truncated list and the number dropped |
| `Truncation.TruncationKeepsPairing` | src/compression/compress.js:227-241 | the kept messages are well paired if and only if the results behind the cut were, on every history and window |
| `Truncation.TruncatedStaysPaired` | src/compression/compress.js:228-231 | a well-paired request stays well paired |
| `Truncation.TruncationKeeps` | src/compression/compress.js:228-243 | system messages survive in order, the first task survives, and at most window + 1 others are kept |
| `Truncation.WindowCut` | src/compression/compress.js:231-238 | of the rest exactly the suffix from the window's first message that is no tool result, nothing when the window is all tool results |
| `Truncation.DistantResultOrphaned` | src/compression/compress.js:237-237 | a result that does not directly follow its call can lose it |
| `Truncation.CompressMessages` | src/compression/compress.js:296-303 | with the other layers off the result is the truncated list with each text compressed once, still paired |
| `Windows.TruncatedIs` | src/compression/compress.js:173-243 | the truncated request, whole, by roles and parts: the system messages, the first user message without results if the cut passed it, and what is behind the cut |
| `Windows.PairingStays` | src/compression/compress.js:227-241 | if each result, by its ids in either dialect, answers a call of the message it stands behind, that is so after truncation and compression with any window |
| `AnthropicStream.ToAnthropicStream` | src/inbound/anthropicInbound.js:178-275 | the frames of a stream that ends or throws |
| `StreamClient.StreamIsWellFormed` | src/inbound/anthropicInbound.js:174-177 | blocks numbered from 0, each started and stopped once, one open at a time, between message_start and message_stop, holding exactly the content |
| `StreamClient.FailedStreamIsCut` | src/inbound/anthropicInbound.js:270-274 | a failed stream is the content so far and one error frame |
| `StreamClient.DeltasNameOpenBlockIff` | src/inbound/anthropicInbound.js:249-256 | every delta names the open block if and only if no fragment with arguments comes back to a call that was passed |
| `StreamClient.ReturningFragmentIsLate` | src/inbound/anthropicInbound.js:249-256 | a call, some text and the rest of the call: a delta for a closed block |
| `Buffered.KeysAreOrder` | src/inbound/anthropicInbound.js:236-248 | one block for each key by first appearance, and all the text, for any interleaving |
| `Buffered.BlocksConserve` | src/inbound/anthropicInbound.js:249-256 | the block opened for a key holds exactly the arguments of the fragments with that key, in order, under the header of the first, for any interleaving |
| `Collected.Collect` | src/routing/router.js:398-415 | the router's loops put together the text, each call from the fragments at its place with the last id given, the finish reason and the counts |
| `Alignment.SameCallsIff` | src/inbound/anthropicInbound.js:236-238 | with all places in the array, keys and places tell the same calls apart if and only if each fragment, by the indices and ids before it, opens a call by both or goes on with one by both |
| `Alignment.OwnFragments` | src/inbound/anthropicInbound.js:249-256 | then each block holds exactly the fragments of one call, for any interleaving and order |
| `Alignment.KeptApartIff` | src/inbound/anthropicInbound.js:237-238 | no block holds fragments of two calls if and only if a fragment without an index repeats no id given without one and meets no index equal to its number, and none with an index meets a nameless one that was given that number and put elsewhere |
| `Alignment.AlignedIff` | src/inbound/anthropicInbound.js:236-248 | keys and places tell the same calls apart, in one order and in the array, if and only if each fragment is in line with the indices and ids before it |
| `Alignment.IndexedAlignedIff` | src/inbound/anthropicInbound.js:238-238 | fragments that all carry an index: exactly when the indices are in the array and first appear in increasing order |
| `Alignment.UnindexedAlignedIff` | src/inbound/anthropicInbound.js:237-238 | fragments without an index, as many as an array can hold: exactly when no id is given twice |
| `Refinement.StreamMatchesBufferedIff` | src/inbound/anthropicInbound.js:174-177 | what a client folds the frames to is toAnthropicResponse of the answer the router collects, content, stop reason and counts, if and only if no text follows a call, keys and places are aligned with each header whole in its first fragment or else the blocks look alike, and no text follows the last count; stop reason and input count agree on every stream |
| `Refinement.ToldApartMatchesIff` | src/inbound/anthropicInbound.js:174-177 | when every call starts with an id that no other carries: exactly when no text follows a call, keys and places are aligned, headers come whole and no text follows the last count |
| `Refinement.IndexedMatchesIff` | src/inbound/anthropicInbound.js:236-248 | and when all fragments carry an index, alignment is that the indices are in the array and first appear in increasing order |
| `Refinement.OrderShows` | src/inbound/anthropicInbound.js:236-248 | whole calls at index 1 and then 0 in one delta: nothing else is amiss, the fold is not the answer, and the same fragments the other way round fold to it |
| `Refinement.LateIndexIsMerged` | src/inbound/anthropicInbound.js:238-238 | calls at index 5, at none and at 1: the last two share a key, and their arguments end up in one block |
| `Refinement.LookAlikesExist` | src/inbound/anthropicInbound.js:236-248 | without ids two calls out of order can still show the blocks of the whole answer |
| `Endings.StreamStopReason` | src/inbound/anthropicInbound.js:118-119 | what a client folds the stream to says tool_use exactly when the last finish reason given is tool_calls, max_tokens exactly when it is length, refusal exactly when it is content_filter, else end_turn |
| `Endings.ResponseStopReason` | src/inbound/anthropicInbound.js:143-143 | and so the whole answer |
| `Endings.StreamCounts` | src/inbound/anthropicInbound.js:217-232 | the folded counts: the provider's last ones or 0, and one more for each event with text from the last output count on |
| `Endings.StreamBlocks` | src/inbound/anthropicInbound.js:236-256 | each block of the folded message is the text of its piece, or shows a call with the id and name of its key's first fragment and what the arguments put together parse to, {} when there are none or they are malformed |
| `Endings.ResponseIs` | src/inbound/anthropicInbound.js:121-150 | the whole answer: its text, if there is any, then each call in order with its id, or a made one, its name and what its arguments parse to, and the counts |
| `Buffered.TokensMatchIff` | src/inbound/anthropicInbound.js:217-232 | the stream's output count is the provider's if and only if no text follows the last count; else it is larger |
| `AnthropicMessages.FromAnthropicMessages` | src/inbound/anthropicInbound.js:36-78 | the loop converts message by message |
| `AnthropicMessages.CallsAndResultsConserved` | src/inbound/anthropicInbound.js:48-72 | calls and results come through in number and order, on every history |
| `AnthropicMessages.ConversionPairs` | src/inbound/anthropicInbound.js:63-75 | a valid history becomes one where each tool message stands in a run behind the assistant message with its id |
| `AnthropicMessages.ForwardedHistoryPaired` | src/inbound/anthropicInbound.js:63-75 | and it is still paired after any truncation |
| `AnthropicMessages.AnswerRoundTrips` | src/inbound/anthropicInbound.js:121-135 | an answer resent as history returns its text, ids, names and normalised arguments |
| `AnthropicMessages.SecondTripChangesNothing` | src/inbound/anthropicInbound.js:48-60 | the arguments keep their meaning and a second trip is the identity |
| `AnthropicHistory.HistoryConserved` | src/inbound/anthropicInbound.js:36-78 | on every history what the converted messages say, call and answer is what the history did, in its order: a string message as it is, an assistant turn's texts and then its calls with their arguments, of any other turn each result's own text under its own id and then the texts |
| `OllamaMessages.FromOllamaMessages` | src/inbound/ollamaInbound.js:17-43 | splicing the list of open calls picks the call the bookkeeping picks, with the same ids |
| `OllamaMessages.IdsAreTraced` | src/inbound/ollamaInbound.js:17-43 | every id in the converted messages is the one given, the one the counter made, or that of the call its result answers |
| `OllamaMessages.ResultIdIsEarlierOrFresh` | src/inbound/ollamaInbound.js:33-38 | on every history: a result without an id carries the id of a call forwarded before it while some call is open, else a made id, which a call has, before or after, if and only if the client gives a call that very id |
| `OllamaMessages.CleanFreshIsNew` | src/inbound/ollamaInbound.js:33-38 | with clean call ids the id made for a result is of no call, before or after |
| `OllamaMessages.ResultAnswersOldest` | src/inbound/ollamaInbound.js:10-16 | the oldest open call of the name, else the oldest open call; a fresh id exactly when none is open |
| `OllamaMessages.CallIdsDistinctIff` | src/inbound/ollamaInbound.js:23-29 | the ids of the calls forwarded are distinct if and only if the client gave none twice and none that the counter handed to a call |
| `OllamaMessages.ResultIdsDistinctIff` | src/inbound/ollamaInbound.js:33-38 | on every history: the ids the results carry are distinct if and only if the client gave none twice and none that a result without one is handed, and no two results without one are handed ids that read the same |
| `OllamaMessages.CleanResultIdsDistinctIff` | src/inbound/ollamaInbound.js:33-38 | the last condition holds of itself when the call ids are distinct and none is one made for a result |
| `OllamaMessages.WithoutGivenIds` | src/inbound/ollamaInbound.js:10-16 | when the client gives no ids, all call ids are distinct and all result ids are distinct, so no call is answered twice |
| `OllamaMessages.GivenIdIsNotMatched` | src/inbound/ollamaInbound.js:36-37 | an assistant message with two calls, a result that gives the younger one's id and a result without an id: both results are forwarded with the younger one's id |
| `OllamaMessages.SuppliedIdCollides` | src/inbound/ollamaInbound.js:25-25 | a supplied `call_0` can equal a generated one |
| `OllamaHistory.HistoryConserved` | src/inbound/ollamaInbound.js:17-43 | on every history what is said, called and answered comes through in order, in the same roles, with the same names, arguments and texts |
| `OllamaHistory.CallIdMade` | src/inbound/ollamaInbound.js:23-29 | on every history a call keeps its id; one without gets call_k, k being the number of ids made before it |
| `OllamaHistory.ResultIdMade` | src/inbound/ollamaInbound.js:33-38 | and so a result without an id that finds no call open |
| `OllamaStream.ToOllamaStream` | src/inbound/ollamaInbound.js:123-193 | the frames of a stream that ends or throws |
| `OllamaStream.DoneOnceAndLast` | src/inbound/ollamaInbound.js:181-192 | exactly one done frame, the last, also when the upstream throws |
| `OllamaStream.StreamMatchesResponseIff` | src/inbound/ollamaInbound.js:82-100 | on every stream collecting the frames gives text, reason and counts of the buffered answer, and its calls if and only if the fragments all fit |
| `OllamaStream.AllFitIff` | src/inbound/ollamaInbound.js:165-166 | fragments, with and without an index in any order, fit if and only if each index named is an array index and not the place of an earlier fragment without one, and each fragment without one has room behind the places before it |
| `OllamaStream.UnindexedFit` | src/inbound/ollamaInbound.js:165-166 | fragments that name no index, as many as an array can hold, fit, and each is sent as a call of its own, as in the whole answer |
| `OllamaStream.IndexedFitIff` | src/inbound/ollamaInbound.js:164-171 | fragments that all carry an index fit if and only if every index is an array index, however they interleave |
| `OllamaStream.InterleavingIrrelevant` | src/inbound/ollamaInbound.js:127-130 | only each call's own fragments matter: two streams of indexed fragments that carry the same fragments per index, however interleaved, send the same calls |
| `OllamaStream.SentAndLost` | src/inbound/ollamaInbound.js:164-171 | on every stream the characters sent and those of fragments put at no array index are all there were |
| `OllamaStream.NothingLostIff` | src/inbound/ollamaInbound.js:164-171 | nothing is lost if and only if every fragment with content names an array index, or none while the array is not full |
| `Endings.OllamaSends` | src/inbound/ollamaInbound.js:46-54 | the calls a stream sends are, by array place, those of the fragments there: their names put together and what their arguments put together parse to, {} when there are none or they are malformed |
| `Endings.OllamaEnds` | src/inbound/ollamaInbound.js:181-190 | a stream that ends says length exactly when the last finish reason given is length, else stop, with the provider's last counts or 0 |
| `Endings.OllamaResponseIs` | src/inbound/ollamaInbound.js:82-100 | the same of the whole answer, call by call |
| `AuthWindow.Window.RecordAuthFailure` | src/audit/index.js:289-318 | the table and the row after one failure |
| `AuthWindow.RunValid` | src/audit/index.js:302-302 | in every run the table has at most 5,000 entries, each listed once |
| `AuthWindow.EvictionTakesOldest` | src/audit/index.js:301-302 | only a new key at a full table evicts, and it takes the oldest, never itself |
| `AuthWindow.FailuresConserved` | src/audit/index.js:283-311 | failures seen = rows and their suppressed counts + pending + lost to eviction |
| `AuthWindow.RowsSpaced` | src/audit/index.js:283-301 | for a key never evicted nothing is lost and rows are a minute apart, whatever the clock does |
| `AuthWindow.RowEveryMinute` | src/audit/index.js:296-311 | for a key never evicted a failure gets a row if and only if the key has none yet or its last one is sixty seconds old, and the row reports exactly the failures of that key no earlier row accounts for |
| `AuthWindow.OrderKept` | src/audit/index.js:301-302 | a key stays where it came in, a new one goes behind the others, and at 5,000 the first makes room |
| `Conversation.TrailingToolResults` | src/audit/index.js:130-138 | the tool messages after the last assistant turn |
| `Conversation.TrailingIs` | src/audit/index.js:128-138 | exactly the messages with role tool behind the last one with role assistant, or all of them when there is none |
| `Conversation.RecordsAddedIff` | src/audit/index.js:128-138 | a request records exactly the results it added if and only if none is buried and none was trailing before |
| `Conversation.EachResultRecordedOnce` | src/audit/index.js:168-182 | over a conversation every added result is recorded by exactly one request, in order |
| `Phrases.ReplaceConserves` | src/compression/caveman.js:26-71 | one pattern: every word's number changes by exactly what the phrases replaced took and what stands for them brought |
| `Phrases.ReplaceAll` | src/compression/caveman.js:232-236 | the loop over a table applies its patterns one after the other |
| `Phrases.TableKeepsIff` | src/compression/caveman.js:14-18 | a table that only erases keeps a word's number if and only if no phrase with that word stands in the text it is given |
| `Phrases.TableSpares` | src/compression/caveman.js:49-51 | no table takes away a word none of its patterns has, on any text |
| `PhraseTables.RewritesKeepProtected` | src/compression/caveman.js:51-70 | the rewrites take no word of NEVER_DROP, on any text |
| `PhraseTables.FillersKeepIff` | src/compression/caveman.js:26-47 | the filler table keeps the number of a word of NEVER_DROP if and only if none of seven phrases with that word stands in the text the table is given |
| `PhraseTables.BothTablesBalance` | src/compression/caveman.js:232-237 | counted against the line caveman is given: after both tables a word of NEVER_DROP is there as often as in the line and in what the rewrites brought, if and only if none of those phrases stands in the rewritten line, else less often |
| `PhraseTables.BothTablesKeepIff` | src/compression/caveman.js:232-237 | for every word of NEVER_DROP but the five the rewrites bring: its number in the line is kept if and only if none of those phrases stands in the rewritten line |
| `PhraseTables.FillerDropsShould` | src/compression/caveman.js:268-270 | a line's only "should" is erased by the two tables |
| `PhraseTables.RewriteMakesLoser` | src/compression/caveman.js:268-270 | a line with none of those phrases in it loses its only "would": the rewrites make one |
| `Caveman.CavemanRun` | src/compression/caveman.js:143-170 | the loop keeps the words, spaces them singly and gives the first its capital back |
| `Caveman.KeptExactly` | src/compression/caveman.js:146-164 | exactly the words not droppable are kept, in order, up to stops moved onto them |
| `Caveman.MeaningKept` | src/compression/caveman.js:143-170 | the words of the result are the words of the run without the droppable ones |
| `Caveman.NeverDropSurvives` | src/compression/caveman.js:85-97 | every word that must not go is there as often as before |
| `Caveman.RunIdempotent` | src/compression/caveman.js:143-170 | a second run changes nothing |
| `Caveman.StopsCarriedIff` | src/compression/caveman.js:153-160 | the words kept carry every stop of every dropped word, in order, if and only if no dropped word with stops stands before the first word kept |
| `Caveman.FirstStopsGone` | src/compression/caveman.js:153-160 | stops of a dropped first word are lost, unless a space came before it |
| `Caveman.CapitalIff` | src/compression/caveman.js:166-169 | the first letter is raised if and only if it is a small one and the run, behind any white space, starts with a capital; nothing else of the kept text changes |
| `Caveman.LookupIs` | src/compression/caveman.js:136-138 | what is looked up is the letters in lower case, the digits and the underscores, and no other character |
| `Caveman.DroppedIff` | src/compression/caveman.js:151-152 | a word goes if and only if that is on the first list and not on the second |
| `Caveman.StopsAre` | src/compression/caveman.js:155-155 | the stops of a word are the longest run of them at its end |
| `CavemanLine.GlueKeepsBoundaries` | src/compression/caveman.js:175-190 | a stretch that keeps words touches its neighbours with a space exactly where the original did |
| `CavemanLine.GlueOf` | src/compression/caveman.js:183-190 | the whole rule for a stretch: what is kept with one space on each side that had white space, and one space for a stretch of which nothing is kept if it had white space on either side |
| `CavemanLine.GlueMeans` | src/compression/caveman.js:183-190 | a stretch of prose keeps the words of its run, whatever white space is put back around them |
| `CavemanLine.GlueTwice` | src/compression/caveman.js:183-190 | a second pass over a stretch changes nothing |
| `CavemanLine.CavemanLine` | src/compression/caveman.js:192-202 | the loop over the matches gives the rewritten stretches with every protected segment verbatim and in order |
| `CavemanLine.LineMeans` | src/compression/caveman.js:192-202 | over a whole line: the protected segments are unchanged, the stretches between them together keep their words but for the droppable ones, in order, and every word of NEVER_DROP as often as before |
| `CavemanLine.LineIsWoven` | src/compression/caveman.js:192-202 | the same stretches and segments, in turn, make up the line |

## Left out

- The text of JSON, server-sent events and newline-delimited frames: frames and parsed values are data.
- UTF-8: a file is characters, so the byte-level last-byte check is on characters, and sizes count characters.
- File-system failures other than a write that lands in part, a lost anchor and a busy or refused lock: a failed read, directory or lock call.
- A write that the system breaks into pieces with another process's text in between, and two processes writing one temporary anchor file.
- LockTurns.AcquireLock: does not model the five-millisecond sleep; the answers are given, and one of them ends the wait.
- Overtaken.BrokenIffOvertaken: asks that writes land whole or not at all and that no two rows have one payload; `Forks.BrokenIffTornOrStale` asks for neither.
- Overtaken.AppendBreaksIff: asks the same; `Heads.AppendBreaksIff` asks for neither.
- Overtaken.MiscountReportedAsRollback: asks the same; `Forks.NeverTruncated` holds of every run.
- Collected.Collect: the counts are the provider's; the estimate the router makes without them is not modelled.
- Anchors whose count is not an integer.
- Chain.VerifyAudit: the counter of write failures and the fixed note are not in the report.
- The structural layer `rtk`, `layersFor` and the statistics of compressMessagesWithStats.
- The regular expression for protected segments, the test for code lines and the clean-up of white space and doubled stops in caveman.
- CavemanLine.CavemanLine: where the protected segments are is given, as matches from left to right.
- PhraseTables.BothTablesBalance: speaks of words between word boundaries, and of the two tables only; what the dropping of words does after them is `CavemanLine.LineMeans`.
- PhraseTables.FillersKeepIff: is about the text the filler table is given; `PhraseTables.BothTablesBalance` is about the line.
- Truncation.Truncate: messages are values, so "included" is decided by position; the source compares object identity.
- AnthropicStream.ToAnthropicStream: starts from deltas already taken out of router events; made-up ids are one value.
- AnthropicMessages.ConversionPairs: asks for Anthropic's two roles; a string message with role `tool` is outside it.
- OllamaMessages.FromOllamaMessages: arguments are their JSON text.
- Requests, tools and tool-choice mapping, model lists and the other inbound dialects, which are field by field.
- Rules, redaction, reviews, recent actions and agent keys of the audit layer.
