# Verification model of the run supervisor

A Dafny model, with proofs, of the parts of this repository in which a run's state is decided: how runtime
envelopes become a run snapshot, how journals of envelopes are read back and judged, how a live run and its
controls end, how stored results and diagnostics are bounded and verified, how JSON and its numbers are
compared and printed, how descriptors reach a spawned session, and what the monitor shows of all this.

`dafny verify dfyconfig.toml` verifies the project.

| files | what they model |
|---|---|
| `Prelude.dfy` | options, refusals, JavaScript maps as insertion-ordered tables, decimal text, white space |
| `Snapshot.dfy`, `Fields.dfy` | the snapshot and event types, and the validators of event fields |
| `Reducer.dfy`, `Lifecycle.dfy`, `RunTheorems.dfy` | the reducer as a function of snapshots, its invariant, and what holds of whole runs |
| `RunOutput.dfy`, `SomeRun.dfy` | the output of attempts over whole runs, and a run that succeeds |
| `History.dfy`, `RunHistory.dfy` | what the envelopes of a run say of every field of its snapshot, without the reducer, and that the snapshot holds exactly that |
| `Admission.dfy`, `RunAdmission.dfy` | which envelope may follow a run, said of its envelopes alone, and that the reducer accepts exactly these |
| `Containers.dfy`, `ReducerState.dfy` | the reducer as it runs: objects, arrays and Maps updated in place on a deep copy, proved equal to the function |
| `Utf8.dfy`, `OutputTail.dfy` | UTF-8 as RFC 3629 defines it, the streaming decoder, and the bounded output tail |
| `Journal.dfy`, `Restore.dfy`, `Retention.dfy` | the chunked journal reader, the restore decision, and the two pruning passes |
| `Controls.dfy`, `ControlTheorems.dfy`, `OwnedRun.dfy` | the live run as a state machine over every interleaving, its theorems, and its object |
| `RestoredRuns.dfy`, `StoppedRuns.dfy` | when the store of a finished run is restored as the run finished, and what is restored of a run whose supervisor stopped before its end |
| `LargeRun.dfy` | a run whose stored snapshot is too large to be read again |
| `ControlCauses.dfy`, `LiveRuns.dfy`, `ControlRequests.dfy` | why each control settles, what each kind of step leaves of a live run, and which controls may be sent |
| `Lines.dfy`, `Diagnostics.dfy` | the lines of a text, and the redacted, bounded log of diagnostics |
| `Decimal.dfy` | exact decimals against real numbers |
| `Sorting.dfy`, `Json.dfy`, `JsonPrint.dfy`, `JsonReading.dfy` | JSON trees, their meaning, the comparison and the compact printers |
| `JsonGrammar.dfy` | a reader of RFC 8259 texts, independent of the printers, and its round trip |
| `JsonScanner.dfy`, `JsonRoundTrip.dfy`, `JsonStrings.dfy` | the scanner of compact objects, its round trip, and where the strings of a text lie |
| `JsonValues.dfy`, `ResultArtifact.dfy` | JSON.parse and JSON.stringify around compact prints, and the verification of result artifacts |
| `SpawnSession.dfy`, `SpawnProcess.dfy` | file actions and pipes as values, and the spawn on a process's descriptor table |
| `Monitor.dfy` | the order of occurrences, the selection and the viewport |

Where the sources change state, so does the model: the reducer with its arrays and Maps, the text decoder, the owned run, the
diagnostics queue, the process table and the monitor are classes, and the loops of the sources are loops.
Each such method is proved against a function or a stated property, and the theorems are proved about that.

Conventions. A JavaScript text is a sequence of Unicode scalar values. SHA-256 is taken to be injective, so
a digest is the content where only equality matters. `JSON.parse` is a parameter: a function from a line to
an envelope, or from a text to a value whose numbers are doubles and whose members are in own-property order. Error messages are not modelled, but which inputs are
refused is; a restore that is refused (`None`) is what the supervisor lists as a failed run with a corrupt store.

Places where the code does something that its description does not say:

- A stored result artifact may begin with a byte-order mark: the text decoder removes it before the text is
  examined, so the bytes need not be the canonical ones (`ResultArtifact.MarkedArtifact`).
- The runtime's own artifact is refused when JSON.stringify does not write the result's code as the compact print
  has it: a number written otherwise than JavaScript shows it, or member names that are array indices and sort
  differently as texts, such as 10 and 9 (`ResultArtifact.OwnArtifactIsAccepted`).
- `compactObjectEntries` returns no entries, without an error, for any text that begins with `{}` and ends
  with `}`. This stays internal: both callers parse the text first, so that only `{}` itself gets there
  (`JsonScanner.EmptyResult`).
- A run that was ended by its own event and then left torn text is finished as failed; its store is refused
  afterwards instead of being restored as failed, unless the event was a failure (`RestoredRuns.ExitIsRestored`).
- snapshot.json is written whatever its size, but at most 64 MiB of it are read. A run with larger prompts and answers
  finishes without a fault and is refused by every restore afterwards (`RestoredRuns.LargeSnapshotIsRefused`,
  `LargeRun.LargeRunIsRefused`).
- A session spawn gives the child a wrong descriptor when a stream inherits a number that an earlier stream has
  given another file, or when a foreign descriptor of stream 1 lands on the pipe of stream 2
  (`SpawnSession.ChildIsRightExactly`).
- A redirect to a target that a closed dispatch did not reserve is sent while an attempt runs, although the reducer
  refuses the report of it, and a recovery may be asked for again after its choice was made
  (`ControlRequests.RedirectExactly`, `ControlRequests.RecoverExactly`). The steer limit of the reducer is not looked
  at before a steer is sent.
- The truncated diagnostics log may end with two markers, because a cut inside a character leaves room
  below the limit (`Diagnostics.SecondMarkerExactly`, `Diagnostics.TwoMarkersHappen`).

## Model

| member | source | states |
|---|---|---|
| `Lifecycle.AttemptKeeps` | ext-pi/src/reducer.ts:199-240 | an event on an attempt keeps its bounds (tail size, message, summary, tool and to-do counts), needs a running attempt, and adds one steer exactly when it is a steer below the run-wide limit |
| `Lifecycle.StartAttemptKeeps` | ext-pi/src/reducer.ts:186-198 | starting an attempt keeps the occurrence invariant, leaves no dispatch open and raises the attempt count by one, below its limit |
| `Lifecycle.OnAttemptKeeps` | ext-pi/src/reducer.ts:199-240 | attempt events keep the occurrence invariant and account for every steer |
| `Lifecycle.RecoveryKeeps` | ext-pi/src/reducer.ts:241-286 | choosing, awaiting and retrying a recovery keep: what was chosen was offered, a pending recovery has no retry, one recovery record holds at most one retry, abandonment is never undone |
| `Lifecycle.OpenDispatchKeeps` | ext-pi/src/reducer.ts:287-294 | a dispatch is opened only where there was none, with distinct targets and no redirect |
| `Lifecycle.RedirectKeeps` | ext-pi/src/reducer.ts:295-313 | a redirect is recorded with its target and control, names a reserved target, leaves the dispatch closed and names an attempt of the occurrence if it stopped one |
| `Lifecycle.EndingKeeps` | ext-pi/src/reducer.ts:314-343 | reuse, person questions, completion and failure keep the occurrence invariant; no reuse, completion or failure while an attempt runs, and no reuse or completion while a person answer is pending |
| `Lifecycle.OccurrenceKeeps` | ext-pi/src/reducer.ts:186-343 | every occurrence event keeps the occurrence invariant, changes the attempt and steer counts by exactly what it starts, and leaves a dispatch in place with its targets, closed once it is closed |
| `Lifecycle.OrderTraceKeeps` | ext-pi/src/reducer.ts:344-357 | the recorded trace is duplicate-free, names existing occurrences, and is recorded only where none was |
| `Lifecycle.RecordAckKeeps` | ext-pi/src/reducer.ts:358-398 | an acknowledgement keeps the ledger of person answers: one delivered answer per answered occurrence |
| `Lifecycle.ReachableIsOk` | ext-pi/src/reducer.ts:26-62 | every reachable snapshot satisfies the whole lifecycle invariant and the global bounds: 2048 occurrences, 512 attempts and 256 steers over all occurrences, 256 acknowledgements |
| `RunTheorems.SuccessTheorem` | ext-pi/src/reducer.ts:344-408 | in every reachable succeeded snapshot the trace is a permutation of the occurrences, each of them completed or reused, none with a running attempt or a pending person answer |
| `SomeRun.SomeRunSucceeds` | ext-pi/src/reducer.ts:158-408 | a run of eight envelopes, with an occurrence that one attempt answered, reaches such a snapshot |
| `RunTheorems.AcceptedCount` | ext-pi/src/reducer.ts:43-47 | n accepted envelopes of a new run end at sequence n - 1 under the same run identity |
| `RunTheorems.ReduceBookkeeping` | ext-pi/src/reducer.ts:26-62 | an accepted envelope advances the sequence by one, keeps the run identity, fixes the protocol version and leaves only its own digest |
| `RunTheorems.TerminalIsFinal` | ext-pi/src/reducer.ts:47-47 | a terminal snapshot accepts no envelope |
| `RunTheorems.EntersDoom` | ext-pi/src/reducer.ts:169-343 | a failed occurrence, the choice to abandon, and a start after the recorded trace each doom the run |
| `RunTheorems.DoomedNeverSucceeds` | ext-pi/src/reducer.ts:335-408 | no continuation of accepted envelopes of a doomed run succeeds |
| `RunTheorems.AbandonedForever` | ext-pi/src/reducer.ts:241-250 | an abandoned occurrence is recovering or failed in every continuation |
| `RunTheorems.OccurrenceMoves` | ext-pi/src/reducer.ts:186-343 | the moves an accepted event can make between the states of an occurrence: recovery only from running, retry only out of recovery, reuse and completion only from running, failure from running or recovering, a reused occurrence stays reused when it completes, and every other event leaves the state |
| `RunTheorems.EndedForever` | ext-pi/src/reducer.ts:251-343 | an occurrence that is completed, reused or failed keeps that state in every continuation of accepted envelopes |
| `RunTheorems.StatusMoves` | ext-pi/src/reducer.ts:156-420 | no accepted envelope asks for cancellation or orphans a run; it ends as succeeded, failed or cancelled exactly on the event of that name, and otherwise the status moves only when the run starts |
| `RunTheorems.ControlsSettleOnce` | ext-pi/src/reducer.ts:358-398 | over every run a control has at most one opening record and then at most one terminal record of the same command and target, and the snapshot holds the last one |
| `RunTheorems.PersonAnswerLedger` | ext-pi/src/reducer.ts:314-334 | a question has stopped being pending if and only if exactly one delivered answer names its occurrence; while it is pending the occurrence does not settle |
| `RunTheorems.DeliveredWasAccepted` | ext-pi/src/reducer.ts:376-397 | an answer is delivered only after the same control was accepted for the same occurrence |
| `RunOutput.OutputIsTailOfChunks` | ext-pi/src/reducer.ts:199-204 | in every accepted run the output of an attempt is the tail of all the chunks that were sent to it, and an attempt that has not started was sent none |
| `RunHistory.SnapshotTellsRun` | ext-pi/src/reducer.ts:156-474 | in every accepted run every field of the snapshot is told by the envelopes alone: a written field is the last value given for it (bills, result, failure, state, answer, retry, redirect, acknowledgement), a growing one is all values given in order (steers, targets, starts), a bounded one the last of them, by occurrence and attempt; and what no envelope gave is empty |
| `RunAdmission.AcceptedExactly` | ext-pi/src/reducer.ts:26-424 | an envelope is accepted after a run if and only if the run admits it, where what a run admits is said of its envelopes alone, without a snapshot |
| `Reducer.ReplayAppend` | ext-pi/src/reducer.ts:26-62 | replaying a concatenation is replaying the second part from where the first ended, refusals included |
| `Containers.ListCell.KeepLast` | ext-pi/src/reducer.ts:432-434 | the splice leaves the last elements |
| `ReducerState.AttemptObject.Accept` | ext-pi/src/reducer.ts:199-240 | the in-place event on an attempt agrees with the specification, and a refusal is the same refusal |
| `ReducerState.AttemptObject.ShowProgress` | ext-pi/src/reducer.ts:426-474 | the in-place progress update agrees with the specification |
| `ReducerState.OccurrenceObject.CopyOf` | ext-pi/src/reducer.ts:54-54 | the copy of an occurrence is deep: equal value, and new objects for attempts, dispatch and recovery and for the arrays and Maps that events mutate |
| `ReducerState.OccurrenceObject.Accept` | ext-pi/src/reducer.ts:186-343 | every occurrence event in place agrees with the specification and touches only the objects of that occurrence |
| `ReducerState.OccurrenceObject.AwaitRecovery` | ext-pi/src/reducer.ts:261-278 | the state is set before the choices are validated; the outcome still agrees with the specification |
| `ReducerState.OccurrenceObject.Redirect` | ext-pi/src/reducer.ts:295-313 | both places of a redirect, with the first running attempt stopped, agree with the specification |
| `ReducerState.RunObject.CopyOf` | ext-pi/src/reducer.ts:50-60 | the copy of a run: equal value, and nothing that can be reached from it is shared |
| `ReducerState.RunObject.CountAttempts` | ext-pi/src/reducer.ts:498-501 | the loop counts the attempts of all occurrences |
| `ReducerState.RunObject.CountSteers` | ext-pi/src/reducer.ts:502-509 | the nested loops count the steers of all attempts |
| `ReducerState.RunObject.OrderTrace` | ext-pi/src/reducer.ts:344-357 | the trace in place agrees with the specification |
| `ReducerState.RunObject.RecordAck` | ext-pi/src/reducer.ts:358-398 | the acknowledgement in place agrees with the specification |
| `ReducerState.RunObject.Accept` | ext-pi/src/reducer.ts:156-424 | the dispatch over all event kinds in place agrees with the specification, whose results are the fields of the envelopes by `RunHistory.SnapshotTellsRun` |
| `ReducerState.ReduceEvent` | ext-pi/src/reducer.ts:26-62 | copy, then apply or refuse, as the specification that `RunHistory.SnapshotTellsRun` and `RunAdmission.AcceptedExactly` describe: the previous snapshot and everything reachable from it, arrays and Maps included, keep their value in both cases, and the new snapshot is made of new objects only |
| `OutputTail.Tail` | ext-pi/src/reducer.ts:628-634 | the byte loop returns the longest suffix, on a character boundary, whose encoding fits 65536 bytes |
| `OutputTail.TailIsLongest` | ext-pi/src/reducer.ts:628-634 | no longer suffix fits, and alignment costs at most three bytes |
| `OutputTail.StreamingTailIsExact` | ext-pi/src/reducer.ts:199-204 | appending chunks one at a time and cutting after each equals one cut of the whole output |
| `Utf8.RunSound` | ext-pi/src/supervisor.ts:614-622 | what the streaming fatal decoder emits re-encodes to the bytes it consumed |
| `Utf8.RunAppend` | ext-pi/src/supervisor.ts:614-622 | decoding in two parts equals decoding at once, for every split |
| `Utf8.DecodeExactly` | ext-pi/src/supervisor.ts:947-947 | a fatal decoder accepts exactly encoded texts and drops one leading byte-order mark |
| `Utf8.EncodeInjective` | ext-pi/src/supervisor.ts:384-384 | a text is determined by its bytes |
| `Journal.TextDecoder.Decode` | ext-pi/src/supervisor.ts:614-622 | one chunk: the text so far grows by what is returned, however characters are split |
| `Journal.ConsumeLines` | ext-pi/src/supervisor.ts:623-631 | the line loop equals folding the reducer over the complete lines |
| `Journal.ReduceJournal` | ext-pi/src/supervisor.ts:605-640 | for every split of a file into chunks the streaming reader gives the fold of the reducer over the non-empty lines, and refuses torn, overlong, oversized or malformed input |
| `Journal.OverlongIsRefused` | ext-pi/src/supervisor.ts:632-632 | the length check on an unfinished line refuses nothing that the simple form accepts |
| `Journal.JournalExactly` | ext-pi/src/supervisor.ts:605-640 | a file is accepted if and only if it is at most 512 MiB of UTF-8 that ends with a newline or is empty, each of its lines is empty or at most 1 MiB and an envelope, and the reducer accepts these envelopes in order; it then is their replay |
| `Journal.FoldIsReplay` | ext-pi/src/supervisor.ts:623-631 | the fold over lines is the replay of their envelopes |
| `Journal.AcceptedJournal` | ext-pi/src/supervisor.ts:605-640 | an accepted journal of n envelopes is a reachable snapshot at sequence n - 1 |
| `Journal.LongerResumesShorter` | ext-pi/src/supervisor.ts:1054-1077 | with a byte prefix, the longer fold is the fold of the shorter state over the remaining lines |
| `Journal.JournalsAgree` | ext-pi/src/supervisor.ts:1054-1077 | two accepted journals that pass the prefix check: one resumes the other, and if the shorter one is terminal they are equal |
| `Restore.RestoreSnapshot` | ext-pi/src/supervisor.ts:642-686 | the restore as it runs, chunked reading and pairwise checks included, equals its decision function, whose outcome the next five rows give for every store |
| `Restore.RefusedStore` | ext-pi/src/supervisor.ts:642-668 | journals that are not accepted, or a stored snapshot that cannot be read or is of another run: refused |
| `Restore.TerminalStore` | ext-pi/src/supervisor.ts:669-675 | a terminal journal: its fold, unless a stored end differs from it or its artifact is not accepted |
| `Restore.StoredEnd` | ext-pi/src/supervisor.ts:676-682 | no terminal journal but a stored end: taken if and only if it is a failure or cancellation that only a supervisor writes |
| `Restore.OpenStore` | ext-pi/src/supervisor.ts:683-686 | no end at all: with a live owner the journal fold, else the stored snapshot, else the initial one, just as it is; without an owner the same but for its status, failure and failure class |
| `Restore.CompatibleExactly` | ext-pi/src/supervisor.ts:649-655 | which two journals are accepted side by side: with a live owner those where the one with the lower sequence is a beginning of the other, otherwise only equal ones |
| `Restore.CheckJournals` | ext-pi/src/supervisor.ts:649-655 | the pairwise loop accepts exactly when every prior journal is compatible |
| `Restore.SucceededIsReplayed` | ext-pi/src/supervisor.ts:642-686 | a restore reports success only when a journal that is present folds to that very snapshot, reachable and of this run, with its artifact accepted |
| `Restore.UnownedIsFinished` | ext-pi/src/supervisor.ts:669-686 | without a live owner the outcome is terminal or orphaned, whatever snapshot.json claims |
| `Restore.UnownedJournalsAreEqual` | ext-pi/src/supervisor.ts:649-655 | without a live owner the accepted journals are equal byte for byte |
| `Restore.TerminalJournalDecides` | ext-pi/src/supervisor.ts:669-675 | a terminal journal decides the outcome alone |
| `Retention.RemoveAged` | ext-pi/src/supervisor.ts:119-121 | the first pass marks exactly the prunable records past the cutoff |
| `Retention.RemoveOldest` | ext-pi/src/supervisor.ts:122-127 | the second pass, which stops early, extends the mark to the computed oldest-first prefix |
| `Retention.Prune` | ext-pi/src/supervisor.ts:116-127 | the two passes remove exactly an oldest-first prefix of the prunable records |
| `Retention.PruneIsLeast` | ext-pi/src/supervisor.ts:116-127 | that prefix is the shortest one that covers the cutoff and meets the count or exhausts the candidates |
| `Retention.PruneExactly` | ext-pi/src/supervisor.ts:115-127 | record by record, only finished, not orphaned runs that no record names as parent are removed; each of them before the cutoff is; another one only while too many runs would be kept; and one that stays is not older than any that is removed |
| `Retention.PruneKeeps` | ext-pi/src/supervisor.ts:1042-1044 | no orphaned or unfinished run and no parent named by any record is removed |
| `OwnedRuns.OwnedRun.RejectAll` | ext-pi/src/supervisor.ts:508-512 | the loop rejects every waiter in registration order and leaves none |
| `OwnedRuns.OwnedRun.FailRun` | ext-pi/src/supervisor.ts:502-514 | a failure sets the supervisor failure unless the run has failed or is terminal, and rejects all waiters |
| `OwnedRuns.OwnedRun.SettleAcknowledged` | ext-pi/src/supervisor.ts:353-369 | in place as in the specification: a terminal acknowledgement resolves its waiter; in protocol 2 a mismatch rejects it and fails the run; `ControlCauses.TerminalRecordSettles` says so of every run |
| `OwnedRuns.OwnedRun.ConsumeChunk` | ext-pi/src/supervisor.ts:372-398 | a chunk of output in place equals the line-by-line specification, mirror, buffer limit and frame limit included |
| `OwnedRuns.OwnedRun.SendControlAwait` | ext-pi/src/supervisor.ts:333-351 | a control is registered before it is written; a refused write rejects it at once |
| `OwnedRuns.OwnedRun.ProcessClosed` | ext-pi/src/supervisor.ts:400-416 | the exit: torn text or a missing end is a failure, or a cancellation if one was requested |
| `OwnedRuns.OwnedRun.ResolveFinished` | ext-pi/src/supervisor.ts:417-441 | when the run is finished no waiter is left, whether or not persistence succeeded |
| `ControlTheorems.TerminalAckIsFrozen` | ext-pi/src/reducer.ts:368-397 | no accepted envelope changes a terminal acknowledgement record |
| `ControlTheorems.NextIsSafe` | ext-pi/src/supervisor.ts:333-442 | every step of output, sending, timeout, fault, cancellation, exit and finish keeps the ledger of controls and ties the live snapshot to the accepted envelopes |
| `ControlTheorems.ControlsSettleExactlyOnce` | ext-pi/src/supervisor.ts:333-369 | in every interleaving each control that was sent waits or has been settled exactly once, and none waits after a fault or once the run is finished |
| `ControlTheorems.ResolutionsAreFinal` | ext-pi/src/supervisor.ts:353-369 | what a control resolves with is a terminal record of what was sent, which the snapshot holds ever after |
| `ControlCauses.TerminalRecordSettles` | ext-pi/src/supervisor.ts:353-369 | in every interleaving, output that makes the record of a waiting control terminal settles it: resolved with exactly that record if the protocol is not 2 or the record repeats what was sent, and otherwise rejected as a mismatch with the run faulted |
| `ControlCauses.SettlementsHaveCauses` | ext-pi/src/supervisor.ts:333-369 | each settlement was made by one step: resolved or mismatched only by output that made its record terminal, not acknowledged only by its own time-out, not sent only by its own refused write, rejected by a fault only with a fault, by the end only at the end |
| `LiveRuns.OutputIsFolded` | ext-pi/src/supervisor.ts:372-398 | output in every interleaving: more than 2097152 UTF-16 units of unread text fault the run, otherwise its lines are read just as the journal reader will fold them, and the run is faulted if and only if that fold refuses them or an acknowledgement does not correlate |
| `LiveRuns.SentControlWaits` | ext-pi/src/supervisor.ts:333-351 | an allowed control waits, correlated with what was asked, once its line is written, and is rejected at once if it is not; nothing else changes |
| `LiveRuns.TimedOutControlIsRejected` | ext-pi/src/supervisor.ts:335-338 | a control that times out is rejected as not acknowledged, and no other control is touched |
| `LiveRuns.FaultFails` | ext-pi/src/supervisor.ts:502-514 | a fault fails an open run with its message, unless it has failed already, and settles every waiter |
| `LiveRuns.ExitEnds` | ext-pi/src/supervisor.ts:400-416 | the exit ends every run, by its torn text, by its own end, as a forced or unforced cancellation, or for want of an end; nothing but status, failure and failure class changes |
| `LiveRuns.FinishKeeps` | ext-pi/src/supervisor.ts:417-441 | the end keeps the snapshot if and only if the store is written and a result that is due is verified; otherwise it only fails it |
| `LiveRuns.FlagsAreAsked` | ext-pi/src/supervisor.ts:305-323 | in every interleaving a run counts as cancelled by request if and only if that was asked while it was open, and as forced if and only if its exit had to be forced after that |
| `ControlRequests.SteerExactly` | ext-pi/src/supervisor.ts:202-219 | below the steer limit a steer may be sent if and only if the run is open, the text neither blank nor over 64 KiB, and the reducer would accept its report |
| `ControlRequests.RecoverExactly` | ext-pi/src/supervisor.ts:225-239 | a recovery may be asked for if and only if the reducer would accept its report for some target, but for an occurrence whose choice was made already: there it is asked for again and the reducer accepts none |
| `ControlRequests.RedirectExactly` | ext-pi/src/supervisor.ts:251-266 | a redirect may be sent if and only if the reducer would accept its report, but for two inputs, both exact: a blank target for a running attempt, and a target that a closed dispatch did not reserve |
| `ControlTheorems.SuccessIsReplayed` | ext-pi/src/supervisor.ts:372-442 | a run reported as succeeded had no fault, is the replay of the envelopes it accepted, and its event mirror folds to the same snapshot |
| `RestoredRuns.FoldGoesOn` | ext-pi/src/supervisor.ts:372-398 | what the stored event mirror folds to is reached from the accepted envelopes by further envelopes, whatever fault befell the run |
| `RestoredRuns.RestoredExactly` | ext-pi/src/supervisor.ts:400-442 | for every interleaving that came to its end, the store is restored as exactly the finishing snapshot if the mirror folds, that fold, when terminal, is the finishing snapshot too, the stored snapshot is at most 64 MiB, and a runtime journal, if there is one, equals the mirror, and refused otherwise |
| `RestoredRuns.UnfaultedRunIsRestored` | ext-pi/src/supervisor.ts:400-442 | without a fault: restored as it finished if the mirror fits the journal limit, the stored snapshot fits its own, the artifact, if one is due, is accepted, and a runtime journal, if there is one, equals the mirror, and refused otherwise |
| `RestoredRuns.ExitIsRestored` | ext-pi/src/supervisor.ts:400-442 | the exit of an unfaulted run, with or without a terminal event, torn or cancelled: restored as it finished if the mirror and the stored snapshot fit, the artifact is accepted, a runtime journal does not differ, and no torn text followed a terminal event other than a failure, and refused otherwise |
| `RestoredRuns.RefusedLineIsNotRestored` | ext-pi/src/supervisor.ts:379-395 | after output with a refused or overlong line, every restore refuses the store, whatever steps follow and whatever else the store holds |
| `RestoredRuns.LargeSnapshotIsRefused` | ext-pi/src/supervisor.ts:662-668 | a finished run whose prompts alone have more bytes than are read of snapshot.json is refused by every restore, whatever the journals hold |
| `LargeRun.RunIsDelivered` | ext-pi/src/supervisor.ts:372-398 | the lines of any run that the reducer accepts, output one after the other, leave the live run without a fault, at the replay of that run, with exactly these lines mirrored |
| `LargeRun.LargeRunIsRefused` | ext-pi/src/supervisor.ts:542-554 | a run of seventy questions of a million bytes each ends without a fault, without an artifact due and with a mirror that can be read, and every restore refuses it |
| `StoppedRuns.StoppedRunIsRestored` | ext-pi/src/supervisor.ts:642-687 | while no snapshot.json is stored, for every interleaving, every fault, every cut of the mirror at a byte and every runtime journal: the restore refuses a cut that does not fold and a journal that differs, gives a terminal fold whose artifact is accepted, and orphans any other fold; the fold replays a beginning or a continuation of the accepted envelopes; without a fault it is a beginning, and exactly the cuts after complete lines within the limit fold |
| `StoppedRuns.OpenRunIsOrphaned` | ext-pi/src/supervisor.ts:684-685 | a run that was open and unfaulted when its supervisor stopped is orphaned from every complete cut of its mirror, at the replay of its first envelopes, and from the whole mirror at the snapshot that the supervisor held |
| `StoppedRuns.LiveRunIsRestored` | ext-pi/src/supervisor.ts:642-687 | while the owner lives and no snapshot.json is stored, for every interleaving, every cut of the mirror and every runtime journal: refused if a file does not fold or the two are out of step, otherwise the fold of the longer one just as it is, unless it is terminal and its artifact is not accepted |
| `StoppedRuns.OpenRunIsFollowed` | ext-pi/src/supervisor.ts:683-683 | while an open, unfaulted run is live, the restore of its whole mirror is exactly the snapshot that its supervisor holds |
| `Diagnostics.StderrQueue.Drain` | ext-pi/src/supervisor.ts:455-476 | the line loop with its dropping flag equals its recursive specification |
| `Diagnostics.DrainIsExact` | ext-pi/src/supervisor.ts:455-476 | for every text that may follow, what was output and what is still to come are what was to come before |
| `Diagnostics.OutputsAreRedaction` | ext-pi/src/supervisor.ts:453-476 | for every split into chunks, the streaming form outputs what the line-by-line form makes of the whole text |
| `Diagnostics.OutputsAreLines` | ext-pi/src/supervisor.ts:453-480 | for every split into chunks, the outputs up to the end are the lines of the received text in order: one within the limit redacted with its newline, a longer one as the fixed replacement, and an unfinished last one redacted too; lines are defined by joining them with newlines |
| `Diagnostics.NothingPasses` | ext-pi/src/supervisor.ts:474-480 | a character that redaction never lets through, and that is neither in the replacement nor the newline, is in no output |
| `Diagnostics.StderrQueue.Queue` | ext-pi/src/supervisor.ts:453-492 | one chunk in place: its output and the log follow the history of chunks; at the end of the stream the outputs are the lines of everything received, each redacted or replaced |
| `Diagnostics.PrefixIsLong` | ext-pi/src/supervisor.ts:874-877 | a cut at a character boundary costs at most three bytes |
| `Diagnostics.LogOfIsOk` | ext-pi/src/supervisor.ts:481-491 | after every history of outputs the log is a prefix of them, cut once at most, with at most two markers |
| `Diagnostics.LogIsBounded` | ext-pi/src/supervisor.ts:481-491 | the log stays below its nominal size plus one marker, and is complete while the output fits |
| `Diagnostics.SecondMarkerExactly` | ext-pi/src/supervisor.ts:481-491 | the whole log of every history of outputs that goes over the limit: what is kept, one marker, and a second one exactly when what is kept leaves room and something was output afterwards |
| `Diagnostics.RoomExactly` | ext-pi/src/supervisor.ts:874-877 | what is kept leaves room exactly when a character of the redacted text straddles the limit, or it has a replacement character just before the limit and no output ended there |
| `Diagnostics.TwoMarkersHappen` | ext-pi/src/supervisor.ts:453-492 | a text, received in two chunks, whose log ends with two markers |
| `Decimals.MatchIsGrammar` | ext-pi/src/manager/json.ts:49-49 | the number expression accepts exactly the texts of section 6 of RFC 8259, each with one reading |
| `Decimals.PointIsScaling` | ext-pi/src/manager/json.ts:125-137 | whole part and fraction are the digits without the point, scaled |
| `Decimals.NormalizedKeepsValue` | ext-pi/src/manager/json.ts:130-136 | stripping zeros on both sides keeps the value and gives a normal form |
| `Decimals.DecimalKeepsValue` | ext-pi/src/manager/json.ts:125-137 | the normal form of every number has its exact real value |
| `Decimals.NormalFormIsUnique` | ext-pi/src/manager/json.ts:139-143 | two normal forms of the same value are the same |
| `Decimals.NumberEqualIsValueEqual` | ext-pi/src/manager/json.ts:139-143 | two numbers compare equal if and only if their exact values are equal |
| `Decimals.LongIsOutside` | ext-pi/src/manager/json.ts:155-156 | the digit-count cut-off rejects no value in range |
| `Decimals.BoundedIntegerIsExact` | ext-pi/src/manager/json.ts:152-160 | the result is v if and only if the value is the integer v inside the range |
| `Decimals.IntegerRoundTrip` | ext-pi/src/manager/json.ts:28-31 | the number of an integer is a number of the grammar and reads back as that integer |
| `Sorting.BeforeIsOrder` | ext-pi/src/manager/json.ts:96-96 | code-unit order is a strict total order on names |
| `Sorting.SortKeeps` | ext-pi/src/manager/json.ts:96-96 | sorting gives the same members, strictly ascending |
| `Sorting.SortIsCanonical` | ext-pi/src/manager/json.ts:96-96 | the order in which members are given does not matter |
| `Jsons.JsonEqualIsMeaning` | ext-pi/src/manager/json.ts:177-188 | the comparison is exactly equality of meaning: exact number values, elements in order, members as a map |
| `Jsons.JsonEqualIsEquivalence` | ext-pi/src/manager/json.ts:177-188 | the comparison is reflexive, symmetric and transitive on all trees |
| `JsonPrint.PrintDependsOnMeaning` | ext-pi/src/catalogue.ts:91-100 | trees that agree up to member order print alike, for both compact printers |
| `JsonReading.EncodeIsMeaning` | ext-pi/src/manager/json.ts:90-98 | two trees print alike if and only if they agree up to member order |
| `JsonReading.EqualTextsAreEqual` | ext-pi/src/manager/json.ts:90-98 | equal texts come from trees that compare equal |
| `JsonGrammar.QuotationIsRead` | ext-pi/src/manager/json.ts:93-93 | a reader of the string grammar of section 7 of RFC 8259, written without the printer, reads every text back from its quotation |
| `JsonGrammar.PrintIsRead` | ext-pi/src/manager/json.ts:90-98 | the compact print of every tree is a JSON text by that grammar, and what it is read as has the meaning of the tree |
| `JsonScanner.UnquoteIsInverse` | ext-pi/src/supervisor.ts:970-971 | a key text is accepted if and only if it is the quotation of the key |
| `JsonScanner.JsonStringEnd` | ext-pi/src/supervisor.ts:987-995 | the index loop finds the end of the string, or that there is none |
| `JsonStrings.StringEndsExactly` | ext-pi/src/supervisor.ts:987-995 | the end found is the first quote with an even number of backslashes before it, and none is found exactly when there is no such quote |
| `JsonScanner.JsonValueEnd` | ext-pi/src/supervisor.ts:997-1002 | the end of the value that starts at an index |
| `JsonScanner.NestedEnd` | ext-pi/src/supervisor.ts:1004-1013 | the bracket-counting loop ends at the bracket that closes the first one; strings are skipped |
| `JsonScanner.CompactObjectEntries` | ext-pi/src/supervisor.ts:961-985 | the scanning loop terminates and equals the recursive specification |
| `JsonScanner.AcceptedReprints` | ext-pi/src/supervisor.ts:961-985 | a non-empty result reprints to the input text |
| `JsonScanner.EmptyResult` | ext-pi/src/supervisor.ts:961-965 | the empty result is given exactly for texts that begin with an empty pair of braces and end with a brace, whatever lies between |
| `JsonRoundTrip.JsonHasOuterWhitespace` | ext-pi/src/supervisor.ts:926-938 | the two-flag loop finds white space outside strings |
| `JsonStrings.OuterSpaceExactly` | ext-pi/src/supervisor.ts:926-938 | for every text, however it falls into strings and what is outside them, white space is found if and only if it stands outside every string; a quote ends a string if and only if an even number of backslashes stands before it |
| `JsonStrings.HasLayout` | ext-pi/src/supervisor.ts:926-938 | every text falls into strings, perhaps with an unclosed last one, and stretches without quotes |
| `JsonRoundTrip.EncodePasses` | ext-pi/src/manager/json.ts:90-98 | a compact print has no newline, no white space outside its strings, and balanced brackets |
| `JsonRoundTrip.ValueIsMeasured` | ext-pi/src/supervisor.ts:997-1014 | the scanner measures a printed value exactly |
| `JsonRoundTrip.CompactRoundTrip` | ext-pi/src/supervisor.ts:961-985 | the scanner applied to the compact print of any object returns exactly its sorted keys with their printed values |
| `JsonValues.StringifyIsEncode` | ext-pi/src/supervisor.ts:957-958 | JSON.stringify of a value is the compact print of a tree if and only if the value spells the tree: numbers as written, members in sorted order |
| `JsonValues.SurvivesExactly` | ext-pi/src/supervisor.ts:957-958 | reading a compact print and writing it again gives the same text if and only if every number is written as it is shown and no object has sorted names that are array indices out of order |
| `ResultArtifact.VerifyResultArtifact` | ext-pi/src/supervisor.ts:940-959 | the verification as it runs, for a code that is any JSON value, equals its specification, which the next rows describe |
| `ResultArtifact.AcceptedArtifact` | ext-pi/src/supervisor.ts:940-959 | an accepted artifact has the length and the SHA-256 digest of its reference, is at most 64 MiB, and is byte for byte the fixed shape around JSON.stringify of the code, one JSON text and one newline, behind a byte-order mark if it begins with one |
| `ResultArtifact.AcceptedFields` | ext-pi/src/supervisor.ts:946-958 | what an accepted artifact is parsed to: version 1, this run, a result whose code is written as that of the reference, and no white space outside strings |
| `ResultArtifact.OneArtifactPerReference` | ext-pi/src/supervisor.ts:944-945 | with a digest that tells bytes apart, two artifacts accepted under one reference are the same bytes, whatever the runs |
| `ResultArtifact.MarkedArtifact` | ext-pi/src/supervisor.ts:947-947 | every accepted artifact stays accepted behind a byte-order mark under the matching reference |
| `ResultArtifact.SomeReaderReadsBack` | ext-pi/src/supervisor.ts:949-949 | the premises of the next rows can be met: a reader that gives, for every compact print, its doubles and its members in own order |
| `ResultArtifact.PrintedArtifactIsAccepted` | ext-pi/src/supervisor.ts:940-959 | the printed artifact of any code and any value, under a reference that names its length and digest, is accepted if and only if JSON.stringify of the code in the reference is the compact print of the code |
| `ResultArtifact.OwnArtifactIsAccepted` | ext-pi/src/supervisor.ts:940-959 | when the reference holds the code as it is read from its compact print, the artifact is accepted if and only if that print survives reading and writing |
| `ResultArtifact.NumberedCodeDoesNotSurvive` | ext-pi/src/supervisor.ts:957-958 | a code with the members 10 and 9 does not: its own artifact is refused |
| `SpawnProcess.Process.Pipe` | runtime/cbits/process_spawn.c:239-239 | a pipe takes the two lowest free numbers |
| `SpawnProcess.Process.OpenStream` | runtime/cbits/process_spawn.c:232-258 | a stream is opened with close-on-exec on both ends and nonblocking on the parent end only; a failure leaves the table as it was |
| `SpawnProcess.Process.CloseStream` | runtime/cbits/process_spawn.c:260-266 | closes the child end, and the parent end when asked |
| `SpawnProcess.OpenStreams` | runtime/cbits/process_spawn.c:309-319 | the three pipes: they open exactly when no step of a requested pipe fails; ends fresh and distinct, and a child end takes a number below its own only on stream 2 |
| `SpawnProcess.NameAll` | runtime/cbits/process_spawn.c:336-345 | the actions for descriptors 0, 1 and 2 in order, then the owner lock; it succeeds exactly when no naming step fails |
| `SpawnProcess.SpawnSearching` | runtime/cbits/process_spawn.c:139-230 | the candidate loop starts at most one child, and exactly when it reports success |
| `SpawnProcess.FirstDecides` | runtime/cbits/process_spawn.c:160-225 | the first candidate that is not passed over decides alone, the shell attempt included; when all are passed over the error is that of denied access if any was denied, and otherwise that of no such file |
| `SpawnProcess.SpawnNewSession` | runtime/cbits/process_spawn.c:298-375 | a success starts one child and leaves the parent only its own pipe ends; the child is right if and only if modes and lock are safe; with safe ones the spawn succeeds if and only if no step fails and something can be started; a failure at any step starts no child and restores the table |
| `SpawnSession.SourceIsIntact` | runtime/cbits/process_spawn.c:268-287 | while the streams so far are safe, no source of a copy has been overwritten by an earlier action |
| `SpawnSession.ChildIsAsWanted` | runtime/cbits/process_spawn.c:268-287 | whatever numbers the pipes took, with safe modes and a safe lock the actions work and leave the child exactly its streams and the owner lock |
| `SpawnSession.OwnNumbersAreSafe` | runtime/cbits/process_spawn.c:289-297 | pipes, closed streams and own numbers are always safe, whatever the parent holds closed, and so is an open lock from number 3 on |
| `SpawnSession.ChildIsRightExactly` | runtime/cbits/process_spawn.c:268-287 | over all modes and locks: the child is right if and only if every foreign descriptor is open and not replaced by another file on its number, no foreign stream 1 overwrites the pipe of stream 2, and the lock is open and its number is left alone |
| `Monitor.OccurrencesAreListedOnce` | ext-pi/src/monitor.ts:101-103 | every occurrence of a reachable snapshot is listed exactly once, the recorded trace first |
| `Monitor.RestIsInOrder` | ext-pi/src/monitor.ts:102-102 | what the trace does not name follows in the order of the starts, and without a trace that is the whole list |
| `Monitor.ListedForGood` | ext-pi/src/monitor.ts:101-103 | an occurrence stays listed in every continuation of the run |
| `Monitor.WindowShowsBlock` | ext-pi/src/monitor.ts:50-56 | the offset wastes no row and shows the whole block if it fits, else the block from its first row |
| `Monitor.Viewport` | ext-pi/src/monitor.ts:49-57 | the rows in view contain the selected block, or are its first rows |
| `Monitor.MonitorModel.Update` | ext-pi/src/monitor.ts:21-25 | the selection survives an update while it is still listed |
| `Monitor.MonitorModel.Move` | ext-pi/src/monitor.ts:27-32 | moving stops at both ends of the list |
| `Monitor.MonitorModel.Render` | ext-pi/src/monitor.ts:40-58 | header, a full window and footer; for every height the window holds the whole selected block when it fits, else begins with it |

## Left out

- Files, processes, signals and clocks: a file is a sequence of bytes that does not change while it is read, its `stat` size is its length, and timers are steps that may happen at any time.
- Lone surrogates: JavaScript texts that are not Unicode are not modelled.
- The flat validation of identifiers by Unicode classes, of timestamps, of question and result references: such fields arrive as valid or not.
- `JSON.parse`: the journal readers take it as any function; `ResultArtifact.PrintedArtifactIsAccepted` asks of it what it makes of compact prints, up to an uninterpreted rounding of numbers, and `RestoredRuns.RestoredExactly` that no line that begins with a byte-order mark is JSON.
- ControlTheorems.NextIsSafe: control identifiers are random in the source; the model takes a control that reuses one as not sent.
- RestoredRuns.RestoredExactly: the run's files are written without errors, an event mirror without any line is an empty file, and the bytes of snapshot.json are an uninterpreted function of the snapshot.
- StoppedRuns.StoppedRunIsRestored: the mirror is written in order, so that what a stopped supervisor leaves of it is a beginning.
- RestoredRuns.RefusedLineIsNotRestored: asks that the mirror does not begin with a byte-order mark, which the journal reader removes; the general case is the one of `RestoredRuns.RestoredExactly`.
- Restore.RestoreSnapshot: the comparison of snapshots through printed projections is modelled as equality of everything but the event digests, and the parsing of snapshot.json as any snapshot value, absent or unreadable.
- ReducerState.ReduceEvent: error texts are grouped into kinds of refusal; arrays and records that the source copies but only ever replaces whole (to-dos, offered choices, dispatch targets, the trace, usage, redirects, references) are values.
- Diagnostics.StderrQueue.Queue: the redaction of one line is an uninterpreted function; the text of its patterns is not modelled.
- JsonPrint.PrintDependsOnMeaning: the binary floating-point numbers of the second printer are an uninterpreted function of their text.
- SpawnProcess.SpawnNewSession: the lookup of the executable is a parameter, and the signal mask and session flags of the child are not modelled.
- Monitor.MonitorModel.Render: the text of a block and the fitting of a line to a width are parameters.
- Heartbeats, owner leases, the refresh of restored runs, launch manifests, configuration parsing and protocol negotiation: flat checks around the state machines modelled here.
- The manager session, its transport and resource decoders, the planner, the Lean model and the Haskell runtime are not part of this model.
