# Panvex: verified models of the agent connection and the panel's bookkeeping

Panvex is an agent on each proxy node and a control plane ("the panel") that the agents report to.
This project models the parts of both whose behaviour is hard to see from one function body, and
proves what they keep over all inputs, all runs and all schedules.

| area | files | main results |
|---|---|---|
| canonical config text and hash | `JsonText`, `Json`, `ConfigCanon` | equal text exactly for the same JSON value, whatever order maps are visited in; the text reads back |
| audit hash chain | `HashChain`, `AuditChain`, `AuditCollect`, `AuditHistory` | exactly what the verifier accepts, from stored pages to verdict; accepted tables are tamper evident; exactly which histories of appends, lost rows, retention and restarts stay accepted |
| delta-gated reports | `DeltaLink`, `DeltaGate`, `ObservedConfig`, `SampleRing`, `UploadInterval` | exactly when "send only on change" equals "always send", for every run of polls, uploads, drops, resets and losses |
| runtime events | `RuntimeEvents` | ring, cursor and pusher: nothing accepted twice, only evicted events skipped |
| one connection | `OutboundPump`, `Teardown`, `MainLoop` | FIFO and conservation, at most one overtaking, teardown terminates under fairness, a reported error is never a clean end |
| transport switches | `TransportSwitch`, `Probation`, `ReloadProtocol` | no switch is lost, probation invariant, a revert restores exactly |
| bootstrap token | `BootstrapToken` | claims, give-backs and closing under any interleaving |
| loops and delays | `RuntimePoll`, `Reconnect` | outage dating, backoff bounds, counters over whole runs |

`GoNumbers` holds Go's 64-bit arithmetic, `Wrappers` the two result shapes, `Sequences` facts about concatenations and slices.

Code that changes state step by step is a class or a method with a loop, proved against a
specification function; protocols with several goroutines are step relations in which a `select` may
take any ready case. Clocks, random draws, I/O results and cancellation are parameters of each step.

## Where the code differs from what it is meant to do

The models follow the code. In these places a property one would expect fails. Each bullet names the
member with a failing input or run, and the one with the exact condition, an if-and-only-if over all inputs
or runs.

- **A zero body means "unchanged".** The panel takes a content hash with an all-empty body for "keep
  what you have" (`agent_telemetry.go:375-393`), but the gate also sends such a body when the observed
  section *became* all empty. Failing run: `DeltaLink.ZeroBodyIsLost`, and `DeltaGate.BlankDiagnosticsAreLost`
  for diagnostics, whose zero tuple is eight empty strings; the security inventory's is
  `"", "", "false", "0", ""`. Exactly: `DeltaLink.DeliveryReachesPanelIff`, and over whole runs
  `DeltaLink.GatedEqualsAlwaysSendIff`.
- **Only the newest sample of an upload interval is forwarded** (`ring_buffer.go:75-100`). A body that
  changed in an earlier poll of the interval is dropped with its sample while the gate remembers its
  hash, and stays lost for any number of quiet intervals. Failing run: `DeltaLink.DroppedChangeIsLost`.
  Exactly: `DeltaLink.UploadKeepsBodyIff`, from whatever gate and panel start from, folded over intervals
  by `DeltaLink.PanelAfterIntervals` and `UploadInterval.RunUploadIntervals`.
- **A snapshot sent past the ring is overwritten by the older sample still in it.** After a job the agent
  sends a snapshot at once (`jobs.go:302-317`); the upload of an older sample then brings the old body
  back, and the gate does not notice. Failing run: `DeltaLink.OlderSampleOverwrites`. Exactly:
  `DeltaLink.GatedEqualsAlwaysSendIff`.
- **A config that changes in a partial snapshot never reaches the panel.** The reporter records its hash
  (`runtime/agent.go:346-354`), the panel passes over the instances of a partial snapshot
  (`agent_snapshot.go:382`), and from the next whole snapshot on it shows the new hash beside the old text.
  Failing run: `ObservedConfig.PartialChangeIsLost`. Exactly: `ObservedConfig.ReceiverHoldsReportedConfigIff`
  for one snapshot, `ObservedConfig.AlwaysMatchingIff` over whole runs.
- **The audit chain is laid in production order but read in (created_at, id) order.** The clock may step
  back, and it is truncated to seconds (`audit_trail.go:43,103`) while ids of seven digits and more compare as
  strings (`http_helpers.go:103-109`), so a row can sort before one it links to. Failing histories:
  `AuditHistory.OutOfOrderIsRefused`, with `AuditHistory.TenMillionthSortsFirst` for the ids. Exactly, for
  any reordering of a chain: `AuditChain.ReorderingConsistentIff`.
- **The chain's tail advances before the row is stored.** A failed insert, which takes its whole batch
  (`batchwriter/writer.go:992-1016`), leaves the next row linking to a row that is missing; only a restart
  sets the tail back. Failing history: `AuditHistory.LostRowBreaksChainUntilRestart`.
- **Retention breaks the chain.** Deleting the oldest rows (`timeseries_rollup.go:163-165`) cuts into the
  chain as soon as a row with a hash is old enough; and when it takes every row, the running panel's next row
  is refused. Failing histories: `AuditHistory.RetentionBreaksChain` and
  `AuditHistory.RetentionOfAllBreaksNext`. Exactly, for one cut: `AuditChain.CutConsistentIff` and
  `AuditHistory.RetentionConsistentIff`.
  For all three, over every history of appends, lost rows, retention and restarts:
  `AuditHistory.AcceptedThroughoutIff`.
- **Counting bootstrap claims does not tell whether the token is still usable.** Failing run:
  `BootstrapToken.ClaimedAndCleared`. Exactly: `BootstrapToken.SinceLatestSet`, which adds that the token
  was not cleared or expired since it was set.
- **A failed load loses a transport switch.** The pending flag is cleared before the state file is read.
  Failing run: `ReloadProtocol.FailedLoadLosesSwitch`. Exactly: `ReloadProtocol.PassHoldsDiskIff`; and
  `ReloadProtocol.PassedOverStays` says that nothing but a later switch, patch or renewal before
  connecting makes up for it.
- **A confirmation that does not reach the disk is undone by the next load.** `Clear` ends probation in memory
  even if the patch of the state file fails, and later calls find nothing to do; after a restart or another
  reload the confirmed switch is on probation again, and reverted once its window is over. Failing run and
  exact condition: `Probation.ConfirmedSwitchStaysIff`.
- **A certificate renewed over the stream is not taken over.** The main loop returns it with
  `ErrCredentialsRefreshed`, but `runConnection` returns the old copy with every error
  (`connection.go:355-371`), and the reconnect loop goes on with that. Failing run:
  `ReloadProtocol.InStreamRenewalNotTakenOver`. Exactly: `ReloadProtocol.RenewalHeldIff`, until the loop next
  loads the state file or renews before connecting.
- **A clock at the epoch breaks probation**, since a zero timestamp means "no probation". Failing run:
  `Probation.EpochClockBreaksProbation`. Exactly: `Probation.SwitchKeepsProbationOkIff` for one switch and
  `Probation.RunKeepsProbationIff` for runs.
- **The poll backoff is multiplied in 64 bits before it is capped**, so with a long poll interval it turns
  negative. Failing input: `RuntimePoll.BackoffOverflows`. Exactly: `RuntimePoll.BackoffProportionalIff`.
- **A value that cannot be marshalled has the canonical text `null`**, because the error is dropped.
  Failing input: `ConfigCanon.DifferentConfigsHashAlike`. Exactly: `ConfigCanon.NullTextIff` and
  `ConfigCanon.UnmarshallableHashIff`. `ConfigCanon.JsonOf` maps such a value to JSON null, and the
  other equivalences are stated over it.

Three more places rest on something outside the modelled code:

- The loop may patch the state file (a revert, a confirmation) only because a connection's switch handlers
  are joined first. `ReloadProtocol.PatchReplacesLoadedCopy` proves that no switch is overwritten, and
  `ReloadProtocol.WithoutJoinPatchOverwritesSwitch` is the run that the join prevents.
- The producer hands on a row with empty hashes when a hash cannot be computed, and its comment says that
  the row is persisted (`audit_hash_chain.go:25-30,48-56`). Details that cannot be hashed cannot be encoded
  for the store either (`storage/postgres/audit.go:18-22`), so the model stores no such row.
- The comment at `connection.go:217-226` says that in listen mode a graceful stop of the server releases
  `Recv`. `transport/listen.go:118-148` only ever calls `GracefulStop`, which waits for handlers that are
  running, and the handler is the runner that waits for `Recv`. The teardown model takes "`Recv` fails once
  the dial context is done" as the transport's contract. Dial mode keeps it; for listen mode it is in
  doubt, and `Teardown.WithoutBridgeWaitCanHang` describes what happens without it.

## Model

| member | source | states |
|---|---|---|
| ConfigCanon.Canonicalize | internal/configcanon/configcanon.go:36-58 | canonicalizing neither hides nor introduces a value that cannot be marshalled |
| ConfigCanon.CanonicalizeIsCanonical | internal/configcanon/configcanon.go:36-58 | the result has strictly sorted keys in every map at every depth, and still no key twice |
| ConfigCanon.CanonicalizeKeepsMeaning | internal/configcanon/configcanon.go:36-58 | canonicalizing only reorders: the JSON value is unchanged |
| ConfigCanon.SameMeaningSameForm | internal/configcanon/configcanon.go:16-58 | a JSON value has one canonical form, so insertion order cannot show |
| ConfigCanon.FirstDifferenceDecides | internal/configcanon/configcanon.go:39-47 | keys are ordered by their first difference, and a key comes before its extensions |
| ConfigCanon.MarshalJSON | internal/configcanon/configcanon.go:68-88 | the buffer loop yields the object text in the order of the map, and an error exactly when a member cannot be marshalled |
| ConfigCanon.CanonicalBytesEqualIffSameJson | internal/configcanon/configcanon.go:10-24 | canonical texts are equal exactly when the JSON values are, for every enumeration order of the maps |
| ConfigCanon.CanonicalBytesReadBack | internal/configcanon/configcanon.go:16-24 | a reader of the JSON grammar consumes the whole canonical text and gets the same value back, with sorted keys |
| ConfigCanon.HashEqualIffSameConfig | internal/configcanon/configcanon.go:27-33 | under an injective digest, hashes are equal exactly for equal configs, and nil hashes like the empty map |
| ConfigCanon.NullTextIff | internal/configcanon/configcanon.go:16-24 | the text is "null" exactly for nil and for values that cannot be marshalled |
| ConfigCanon.UnmarshallableHashIff | internal/configcanon/configcanon.go:16-33 | a config that cannot be marshalled has the hash of every other such config, and of no config that can |
| ConfigCanon.DifferentConfigsHashAlike | internal/configcanon/configcanon.go:16-33 | two configs with different keys and one hash |
| Json.ReadPrint | internal/configcanon/configcanon.go:68-88 | reading undoes printing for every supported value, whatever text follows |
| Json.PrintInjective | internal/configcanon/configcanon.go:68-88 | two ordered values with the same text are the same value |
| Json.PrintIsSafe | internal/controlplane/audit/hashchain/hashchain.go:59-80 | marshalled text holds no control character, so the unit separator in the hash input is unambiguous, and nothing that HTML would take for markup |
| JsonText.ReadNumberOfNumber | internal/configcanon/configcanon.go:68-88 | decimal integers read back, whatever non-digit follows |
| JsonText.DigitsAreTheNumeral | internal/configcanon/configcanon.go:16-24 | the digits printed for a number are its only numeral without a leading zero (RFC 8259, section 6), and no run of digits for it is shorter |
| JsonText.EscapeShape | internal/configcanon/configcanon.go:68-88 | which characters stand for themselves, which have an escape of two characters and which one of six |
| JsonText.PlainTextAsItIs | internal/configcanon/configcanon.go:68-88 | text without quotes, backslashes, control characters and markup is printed as it is |
| JsonText.ReadStringBodyOfEscapeAll | internal/configcanon/configcanon.go:68-88 | strings with every escape the encoder uses read back |
| HashChain.SplitAtSeparator | internal/controlplane/audit/hashchain/hashchain.go:59-80 | the hash input splits uniquely into the previous hash and the event text |
| HashChain.PayloadReadsBack | internal/controlplane/audit/hashchain/hashchain.go:59-80 | what is hashed is the previous hash, the byte 0x1f, and a canonical text that reads back to the six members of the event under their names |
| HashChain.EventHashInjective | internal/controlplane/audit/hashchain/hashchain.go:59-145 | equal event hashes exactly for the same previous hash and the same event; details compare as JSON values |
| HashChain.ComputingIsSound | internal/controlplane/audit/hashchain/hashchain.go:59-80 | the event hash meets the contract the chain verifier relies on |
| AuditChain.VerifyAuditChainRows | cmd/control-plane/verify_audit_chain.go:118-174 | for any hash that is never empty: no mismatch exactly for rows that are a hash-less prefix followed by a linked chain; otherwise the verdict names the first row at which the table stops being consistent, and whether it is the link, a hash that cannot be computed, or the hash |
| AuditChain.ChainedRowHasHash | cmd/control-plane/verify_audit_chain.go:124-132 | a chained row has a hash, so a hash-less row is never skipped after the chain started |
| AuditChain.ChainStartUnique | cmd/control-plane/verify_audit_chain.go:122-132 | the split into legacy prefix and chain is unique |
| AuditChain.OnlyStartIsEmpty | cmd/control-plane/verify_audit_chain.go:129-141 | exactly the first chained row points back to nothing |
| AuditChain.TamperEvidence | cmd/control-plane/verify_audit_chain.go:122-167 | accepted tables whose last hashes agree up to case have equally long chains with the same events and links; only the hash-less prefix may differ |
| AuditChain.UpperCaseHashAccepted | cmd/control-plane/verify_audit_chain.go:159-165 | a hash stored in upper case is accepted |
| AuditChain.CutConsistentIff | internal/controlplane/storage/postgres/audit.go:131-138 | cutting rows off the front keeps a table acceptable exactly when the cut stays within the hash-less prefix or takes everything |
| AuditChain.ReorderingConsistentIff | cmd/control-plane/verify_audit_chain.go:105-167 | for a consistent table with distinct hashes, every reordering is accepted exactly when the chained rows keep their order |
| AuditCollect.NormalizeCursorLimit | internal/controlplane/storage/store.go:45-55 | a page size in range is kept, none becomes 100 and a larger one 500 |
| AuditCollect.RowsAfterNth | internal/controlplane/storage/postgres/audit.go:88-94 | the key of the n-th row as a cursor selects exactly the rows after it |
| AuditCollect.PagesAreFull | internal/controlplane/storage/postgres/audit.go:118-128 | every page but the last holds as many rows as asked for, within 1 to 500 |
| AuditCollect.PageContinues | internal/controlplane/storage/postgres/audit.go:75-129 | consecutive pages join without a gap or a repeat, and the walk ends exactly at the end of the table |
| AuditCollect.SortReverses | cmd/control-plane/verify_audit_chain.go:105-110 | sorting the newest-first table by time and id reverses it |
| AuditCollect.CollectAuditChainAscending | cmd/control-plane/verify_audit_chain.go:82-112 | the result is the whole table oldest first, or an error exactly when the table reaches the cap |
| AuditCollect.RunVerifyAuditChain | cmd/control-plane/verify_audit_chain.go:64-75 | a clean verdict exactly when the stored table, oldest first, is consistent |
| AuditHistory.AuditTrail.ChainAuditRecordLocked | internal/controlplane/server/audit_hash_chain.go:37-61 | the row links to the tail and becomes it, or keeps both hashes empty and leaves the tail alone |
| AuditHistory.AuditTrail.AppendAudit | internal/controlplane/server/audit_trail.go:29-138 | the tail moves on whether or not the row is then stored; a stored row takes its place in key order; details that cannot be hashed are refused by the store |
| AuditHistory.AuditTrail.PruneAuditEvents | internal/controlplane/storage/postgres/audit.go:131-138 | rows older than the cutoff go, the tail in memory stays |
| AuditHistory.AuditTrail.RestoreAuditSeq | internal/controlplane/server/state_restore.go:220-235 | a restart takes the hash of the newest row by key as its tail |
| AuditHistory.RunKeepsAscending | internal/controlplane/storage/postgres/audit.go:71-95 | through every history the table has distinct keys in order |
| AuditHistory.RowAppendedIff | internal/controlplane/server/audit_hash_chain.go:37-61 | a row behind the last one is accepted exactly when it links to the last hash |
| AuditHistory.MiddleRowRefused | cmd/control-plane/verify_audit_chain.go:105-141 | a chained row that sorts before a stored one makes the table unacceptable |
| AuditHistory.RetentionConsistentIff | internal/controlplane/server/timeseries_rollup.go:163-165 | after retention the verifier accepts the rest exactly when no row with a hash was older than the cutoff, or every row was |
| AuditHistory.AcceptedThroughoutIff | internal/controlplane/server/audit_hash_chain.go:20-61 | over every history of appends, lost rows, retention and restarts, the table is acceptable at every point exactly when each stored row was the newest by key behind a tail that was not ahead of the table, and no retention cut into the chain |
| AuditHistory.VerifyTrail | cmd/control-plane/verify_audit_chain.go:64-112 | the command's verdict on the listed table is that of the table in key order |
| AuditHistory.OutOfOrderIsRefused | internal/controlplane/server/audit_trail.go:37-46 | two events of which the second sorts first are refused although nothing failed |
| AuditHistory.TenMillionthSortsFirst | internal/controlplane/server/http_helpers.go:103-109 | within a second the ten-millionth id sorts before the one it follows |
| AuditHistory.LostRowBreaksChainUntilRestart | internal/controlplane/batchwriter/writer.go:992-1016 | after a row that was hashed and not stored the next one is refused, unless the panel restarted in between |
| AuditHistory.RetentionBreaksChain | internal/controlplane/storage/postgres/audit.go:131-138 | of two chained rows, deleting the first makes the table unacceptable |
| AuditHistory.RetentionOfAllBreaksNext | internal/controlplane/storage/postgres/audit.go:131-138 | after every row was deleted, the running panel's next row is refused |
| DeltaGate.WriteFields | internal/agent/runtime/diagnostics_gate.go:23-30 | what the digest is fed is the length-prefixed stream of all fields |
| DeltaGate.BigEndianRoundTrip | internal/agent/runtime/diagnostics_gate.go:25-28 | a length below 2^64 reads back from its eight bytes |
| DeltaGate.BigEndianBytes | internal/agent/runtime/diagnostics_gate.go:25-28 | the most significant byte of a length comes first |
| DeltaGate.DecodeStream | internal/agent/runtime/diagnostics_gate.go:23-30 | the stream decodes to the field list it was made from |
| DeltaGate.StreamInjective | internal/agent/runtime/diagnostics_gate.go:23-30 | two field lists of any lengths have the same stream only when they are equal |
| DeltaGate.ContentHashGate.Next | internal/agent/runtime/diagnostics_gate.go:22-39 | the hash of the fields always, the body exactly when the hash is not the remembered one, which it becomes |
| DeltaGate.ContentHashGate.Reset | internal/agent/runtime/diagnostics_gate.go:45-49 | the next call sends the body again |
| DeltaGate.TupleDigestIsSound | internal/agent/runtime/diagnostics_gate.go:22-30 | the gate's hash of a tuple meets the contract of the delta link |
| DeltaGate.Report | internal/agent/runtime/agent.go:372-413 | a snapshot's section is the message of the delta link, with a zero body when nothing changed |
| DeltaGate.SectionReachesPanelIff | internal/controlplane/server/agent_telemetry.go:339-393 | in every run, a tuple that a snapshot brings is the one the panel then holds exactly when it was held already, or was not the one the gate was asked for just before and is not the zero tuple |
| DeltaGate.BlankDiagnosticsAreLost | internal/controlplane/server/agent_telemetry.go:375-383 | diagnostics that become all empty never reach the panel, however often they are polled, sent and uploaded |
| DeltaLink.LinkFollowsTrace | internal/agent/conn/polling.go:234-319 | in every run of polls, uploads, drops, direct sends, resets, cache losses and blank reports, gate, newest sample and panel are what a description without hashes says |
| DeltaLink.DeliveryReachesPanelIff | internal/controlplane/server/agent_telemetry.go:339-393 | after any run, a delivered body is the one the panel then holds exactly when it was held already, or changed when it was polled and is not the zero body |
| DeltaLink.GatedEqualsAlwaysSendIff | internal/agent/runtime/diagnostics_gate.go:22-49 | a run agrees with always sending at every point exactly when each delivered body is what always sending has already, or changed when polled and not the zero body |
| DeltaLink.GatedRefinesAlwaysSend | internal/agent/runtime/diagnostics_gate.go:22-49 | without loss, reordering and zero bodies, and with a reset after each loss of the panel's copy, the gated link refines always-send |
| DeltaLink.ZeroBodyIsLost | internal/controlplane/server/agent_telemetry.go:369-383 | however often the zero body is reported, the old body stays |
| DeltaLink.AfterPolls | internal/agent/conn/polling.go:272-277 | the newest sample carries a body only when the last poll changed it, from whatever the gate remembered |
| DeltaLink.LostStaysLost | internal/agent/runtime/diagnostics_gate.go:31-38 | when the gate remembers a body that the panel did not get, no number of further reports brings it |
| DeltaLink.DroppedChangeIsLost | internal/agent/runtime/ring_buffer.go:75-100 | a change in an earlier poll of an interval is lost, and stays lost in quiet intervals |
| DeltaLink.OlderSampleOverwrites | internal/agent/conn/polling.go:303-310 | a directly sent body is overwritten by the older sample that is uploaded after it, and stays lost |
| DeltaLink.UploadKeepsBodyIff | internal/agent/runtime/ring_buffer.go:75-100 | for every remembered hash and every held body: after an interval the panel holds the newest body exactly when it held it before, or it is not the zero body and the last poll changed the hash |
| DeltaLink.PanelAfterIntervals | internal/agent/conn/polling.go:281-319 | over any number of intervals with resets, the panel holds the body of the last interval whose last poll brought a change |
| ObservedConfig.ObservedConfigReporter.Next | internal/agent/runtime/observed_config.go:21-34 | the config's hash always; a body that is sent is the canonical text with that hash |
| ObservedConfig.ObservedConfigReporter.Reset | internal/agent/runtime/observed_config.go:38-42 | the next call sends the text again |
| ObservedConfig.ObservedConfigReporter.Report | internal/agent/runtime/agent.go:342-367 | a snapshot carries hash and text of a config that could be read, partial or not, and nothing when the read failed |
| ObservedConfig.CanonicalBytesNotEmpty | internal/controlplane/server/agent_snapshot.go:171-183 | canonical text is never the empty text that the panel takes for "unchanged" |
| ObservedConfig.ReceiverHoldsReportedConfigIff | internal/controlplane/server/agent_snapshot.go:382-392 | after any run, a config that is delivered is told by its hash, and the text held with that hash has it, and reads back as the observed config, exactly when the config differed from the one read before or its text was held already |
| ObservedConfig.AlwaysMatchingIff | internal/controlplane/server/agent_snapshot.go:166-392 | at every point of a run the held text has the held hash exactly when every delivered text had changed when it was read or was held already; partial snapshots, dropped samples, failed reads, resets, restarts and snapshots without instances included |
| ObservedConfig.StepEffect | internal/controlplane/server/agent_snapshot.go:373-392 | what each step does to the hash and the text in the panel's store |
| ObservedConfig.SampleIsTakenOnce | internal/agent/conn/polling.go:303-316 | a sample is uploaded once at most, and not at all once it was dropped |
| ObservedConfig.LosslessKeepsMatching | internal/agent/runtime/observed_config.go:21-42 | with whole snapshots that all arrive, and a reset after each restart of the panel, the held text always has the held hash |
| ObservedConfig.LostStaysLost | internal/agent/runtime/observed_config.go:21-34 | a config the reporter remembers and the panel did not get is not brought by any further report of it |
| ObservedConfig.PartialChangeIsLost | internal/controlplane/server/agent_snapshot.go:373-392 | a config that changes in a partial snapshot leaves the panel with the new hash beside the old text for good |
| SampleRing.PushWithRoom | internal/agent/runtime/ring_buffer.go:38-48 | a write into a ring with room appends to its contents |
| SampleRing.PushWhenFull | internal/agent/runtime/ring_buffer.go:38-48 | a write into a full ring drops exactly the oldest entry |
| SampleRing.RuntimeRingBuffer.Push | internal/agent/runtime/ring_buffer.go:38-48 | the in-place update does that to the contents, and counts what is dropped |
| SampleRing.RuntimeRingBuffer.SnapshotOrdered | internal/agent/runtime/ring_buffer.go:52-71 | the contents oldest first; the ring is then empty and its slots zeroed |
| SampleRing.RuntimeRingBuffer.DrainNewest | internal/agent/runtime/ring_buffer.go:75-100 | the forwarded sample is the one pushed last |
| UploadInterval.RunUploadInterval | internal/agent/conn/polling.go:229-319 | gate, ring, upload and panel together: an interval, from whatever they start from, is the run of its polls and its upload, and the ring's size does not matter |
| UploadInterval.RunUploadIntervals | internal/agent/conn/polling.go:172-319 | the same over any number of intervals with resets; from a new gate and an empty panel it ends with the body of the last interval whose last poll brought a change |
| RuntimeEvents.EventRing.Append | internal/agent/runtimeevents/buffer.go:49-59 | appending numbers the event and evicts the oldest one of a full ring |
| RuntimeEvents.EventRing.DrainAfter | internal/agent/runtimeevents/buffer.go:73-83 | the retained events with a larger number, in order |
| RuntimeEvents.EventRing.Flush | internal/agent/conn/runtime_events_pusher.go:132-152 | the batch loop is the run of accepted sends up to the first refused one |
| RuntimeEvents.AfterIsSuffix | internal/agent/runtimeevents/buffer.go:73-83 | what is drained is a suffix of the ring, without a gap behind the cursor unless events were evicted |
| RuntimeEvents.RunKeepsInv | internal/agent/conn/runtime_events_pusher.go:132-152 | appends, evictions, drains, accepted and refused sends in any order keep the invariant |
| RuntimeEvents.AcceptedInEveryRun | internal/agent/conn/runtime_events_pusher.go:80-152 | in every run: batches of 1 to 50, strictly increasing numbers, genuine events, the cursor is the last accepted number, and only evicted events were passed over |
| RuntimeEvents.FlushedKeepsInv | internal/agent/conn/runtime_events_pusher.go:132-152 | a whole flush keeps the invariant for every pattern of send results |
| RuntimeEvents.FlushedInFrames | internal/agent/conn/runtime_events_pusher.go:93-152 | a flush sends frames of fifty events, only the last shorter, up to the first refused one; n pending events take (n + 49) / 50 sends; accepted frames and cursor are those of the sends before the refusal |
| RuntimeEvents.SuccessfulFlushDeliversRing | internal/agent/conn/runtime_events_pusher.go:132-152 | after a flush without send errors every retained event has been accepted |
| OutboundPump.BoundedChannel.Enqueue | internal/agent/conn/outbound.go:15-35 | a message is appended or refused without blocking; accepted exactly when the context was open, there was room and the select took the send |
| OutboundPump.RunKeepsConserved | internal/agent/conn/outbound.go:42-76 | every step keeps, per channel: accepted is sent, then in hand, then queued |
| OutboundPump.FifoInEveryRun | internal/agent/conn/outbound.go:42-76 | in every schedule from the start nothing is lost, repeated or reordered within a channel, and the channels hold at most 32 and 64 messages |
| OutboundPump.DoneEndsPump | internal/agent/conn/outbound.go:52-74 | a pump that takes its Done case, or whose send fails, takes and sends nothing more, and the connection is done then |
| OutboundPump.AtMostOneOvertakes | internal/agent/conn/outbound.go:52-74 | while a queued critical message waits, at most one telemetry message is taken, and none unless the pump was at its second select |
| OutboundPump.StillQueued | internal/agent/conn/outbound.go:52-74 | that message stays in the queue, one place further for every critical message taken |
| OutboundPump.OneOvertakingHappens | internal/agent/conn/outbound.go:60-72 | the bound is reached |
| Teardown.NextKeepsValid | internal/agent/conn/connection.go:250-286 | the wait group's counter is the number of live goroutines after every step |
| Teardown.ExitedPumpMeansDone | internal/agent/conn/connection.go:391-397 | along every schedule from a new connection, a pump that has exited means that the connection is done: a failed Recv or Send ends it |
| Teardown.RunIsLater | internal/agent/conn/connection.go:215-286 | along a schedule contexts stay done, exited goroutines stay so, and none starts once the runner waits and the inbound pump is gone |
| Teardown.CounterOnlyFalls | internal/agent/conn/connection.go:379-432 | the ranking: from then on the counter never rises, and falls exactly when a goroutine exits |
| Teardown.RunnerWaits | internal/agent/conn/connection.go:439-478 | the runner leaves its calls and its main loop once the connection context is done |
| Teardown.TeardownTerminates | internal/agent/conn/connection.go:215-286 | once the connection context is done, every schedule in which calls return, selects are fair and the bridge runs reaches the deferred wait and brings the counter to zero for good; the dial context may also end by itself |
| Teardown.WithoutBridgeWaitCanHang | internal/agent/conn/connection.go:217-232 | without the bridge goroutine a fair schedule keeps the wait group above zero for ever |
| Teardown.FreshConnectionMayHang | internal/agent/conn/connection.go:217-232 | a new connection reaches such a state in one step |
| MainLoop.ReportedErrorReturned | internal/agent/conn/connection.go:450-478 | an error in the buffer stays there until the loop takes it, and the loop does not return nil |
| MainLoop.BufferRemembers | internal/agent/conn/outbound.go:180-185 | while the loop runs, the buffer holds an error exactly when one was reported |
| MainLoop.ErrorCancelNeverClean | internal/agent/conn/connection.go:450-478 | if the cancel came from a reported error, the loop does not return nil, whichever ready case its selects pick |
| MainLoop.OutcomeExplained | internal/agent/conn/connection.go:450-530 | in every run that returns: the first reported error, by taking it from the buffer; a renewal, by a renewal that succeeded; or nil, after a cancel and with nothing reported |
| MainLoop.RefreshedOnlyAfterRenewal | internal/agent/conn/connection.go:491-505 | the loop reports refreshed credentials only when a renewal succeeded |
| MainLoop.CleanIffNothingReported | internal/agent/conn/connection.go:450-475 | the inner select returns nil exactly when no error was reported, and one of its cases is always ready |
| TransportSwitch.StateFile.Update | internal/agent/state/credentials.go:126-143 | an atomic patch of the disk copy, or no change when it fails |
| TransportSwitch.UpdateTransport | cmd/agent/runtime.go:167-212 | the disk takes the switch first, a snapshot is taken exactly on a change of mode, and the flag is raised only when the write succeeded |
| TransportSwitch.TransportReload.SetPending | internal/agent/conn/connection.go:43-49 | the flag is up and the live connection's cancel is returned |
| TransportSwitch.TransportReload.TakePending | internal/agent/conn/connection.go:53-61 | the flag is consumed |
| TransportSwitch.MaybeRevert | internal/agent/probation/probation.go:17-56 | reverts exactly when probation has run out, under 64-bit saturation; disk transport fields then equal memory and other disk fields are kept |
| TransportSwitch.Clear | internal/agent/probation/probation.go:60-74 | probation ends in memory and on disk; mode, addresses, server name, URL and identity stay |
| TransportSwitch.SwitchedFields | cmd/agent/runtime.go:174-192 | what a switch does to each field: the snapshot exactly on a change of mode, the URL only when given, dial target and identity never |
| TransportSwitch.ConfirmedFields | internal/agent/probation/probation.go:64-69 | a confirmation changes nothing but snapshot and timestamp |
| TransportSwitch.DueAfterTenMinutes | internal/agent/probation/probation.go:17-27 | a probation without a window of its own runs for ten minutes |
| TransportSwitch.Loop.AdoptDialTarget | internal/agent/conn/reconnect.go:94-111 | the dial target takes over what is not empty |
| TransportSwitch.Loop.RefreshAtTop | internal/agent/conn/reconnect.go:88-111 | reload first, then the probation check; the disk is patched exactly on a revert whose write succeeds; the dial target follows the credentials exactly when these were reloaded or reverted |
| TransportSwitch.SwitchReachesLoop | internal/agent/state/credentials.go:77-143 | from handler to loop: what a switch wrote is what the loop loads and the disk keeps, whatever probation the loop's old copy was on, with the panel's URL replaced only by one that was given |
| Probation.ProbationOkInEveryRun | cmd/agent/runtime.go:174-192 | in every run whose clock never stands at the epoch, in memory and on disk, snapshot and timestamp come together and the snapshot is of another mode |
| Probation.SwitchKeepsProbationOkIff | cmd/agent/runtime.go:174-192 | one switch keeps the invariant exactly when it keeps the mode or the clock is not at the epoch |
| Probation.RunKeepsProbationIff | cmd/agent/runtime.go:174-192 | a run keeps the invariant at every point exactly when no switch of mode happens at the epoch |
| Probation.EpochClockBreaksProbation | cmd/agent/runtime.go:175-184 | a switch at the epoch leaves a snapshot that no revert restores, at whatever time it is tried |
| Probation.QuietKeepsArmed | cmd/agent/runtime.go:174-192 | a same-mode update keeps snapshot and timestamp, and a revert before the deadline changes nothing |
| Probation.QuietRunKeepsArmed | internal/agent/probation/probation.go:17-27 | probation stays armed in every run without another mode change, confirmation or deadline |
| Probation.RevertRestoresExactly | internal/agent/probation/probation.go:28-56 | after any such run the revert restores mode and listen address, endpoint and server name when they were not empty, and leaves every other disk field to its writers |
| Probation.RevertRestoresAllFour | internal/agent/probation/probation.go:28-56 | when nobody else moved the dial target, all four fields are as before the switch, empty ones included |
| Probation.ConfirmedSwitchStays | internal/agent/probation/probation.go:60-74 | after a confirmation that reached the disk nothing but another switch moves mode and listen address: no revert, reload or other writer |
| Probation.ConfirmedTargetStays | internal/agent/probation/probation.go:60-74 | without other writers the dial target stays as well |
| Probation.ConfirmedSwitchStaysIff | internal/agent/probation/probation.go:66-72 | a confirmed switch survives a later load and the end of the window exactly when the confirmation reached the disk |
| ReloadProtocol.RunKeepsCovered | internal/agent/conn/connection.go:43-61 | in every interleaving, handlers joined or not, renewals over the stream included, the transport in memory differs from that on disk only while a load, a flag or a handler will make up for it, or the last I/O failed |
| ReloadProtocol.RunKeepsAlone | internal/agent/conn/connection.go:241-254 | with the join, no handler and no raised flag is left while the loop works on its copy |
| ReloadProtocol.NoSwitchLost | internal/agent/conn/connection.go:43-61 | when the flag is found down and the last I/O succeeded, the transport in memory is that on disk; without the join of handlers, unless one is between write and flag |
| ReloadProtocol.BehindOnlyAfterFailure | internal/agent/conn/reconnect.go:88-101 | the exception made for failed I/O applies only after a load or a patch that failed |
| ReloadProtocol.LatestSwitchHeld | internal/agent/conn/reconnect.go:88-101 | unless a later patch reached the disk, the loop then holds the very switch that was requested last |
| ReloadProtocol.PassHoldsDiskIff | internal/agent/conn/reconnect.go:88-101 | however many switches raised the flag, one pass of the loop ends with the transport in memory equal to that on disk exactly when the load succeeded or there was nothing to load; a load takes over the whole file |
| ReloadProtocol.PatchReplacesLoadedCopy | internal/agent/probation/probation.go:40-74 | in every run a revert or confirmation replaces a copy the loop has loaded, with no handler under way and the flag down, unless the last I/O failed |
| ReloadProtocol.WithoutJoinPatchOverwritesSwitch | internal/agent/conn/connection.go:241-254 | why handlers are joined: a handler that outlived its connection could have its switch overwritten |
| ReloadProtocol.FailedLoadLosesSwitch | internal/agent/conn/reconnect.go:88-101 | a load that fails after the flag was cleared loses the switch |
| ReloadProtocol.PassedOverStays | internal/agent/conn/reconnect.go:88-101 | with the flag down, the transport in memory and on disk stays as it is until the next switch, patch or renewal before connecting; a renewal over the stream does not help |
| ReloadProtocol.RenewalHeldIff | internal/agent/conn/connection.go:352-372 | after any run a renewed certificate is what the loop goes on with, until it loads or renews again, exactly when the renewal was made before connecting |
| ReloadProtocol.InStreamRenewalNotTakenOver | internal/agent/conn/connection.go:352-372 | a run in which all I/O succeeds and the loop is back at its top with the old certificate |
| BootstrapToken.AgentsTable.SetAgentBootstrapToken | internal/dbsqlc/transport.sql.go:144-161 | the row becomes pending with the given hash; no other row changes |
| BootstrapToken.AgentsTable.ConsumeAgentBootstrapToken | internal/dbsqlc/transport.sql.go:26-44 | a pending row becomes active and one affected row is reported, otherwise nothing and zero |
| BootstrapToken.AgentsTable.RevertAgentBootstrapConsumed | internal/dbsqlc/transport.sql.go:129-142 | only an active row that still has its hash becomes pending again |
| BootstrapToken.AgentsTable.ClearAgentBootstrapToken | internal/dbsqlc/transport.sql.go:13-24 | the row is active without hash and expiry |
| BootstrapToken.AgentsTable.ExpireAgentBootstrapToken | internal/dbsqlc/transport.sql.go:46-56 | the row is expired without hash |
| BootstrapToken.SinceLatestSet | internal/dbsqlc/transport.sql.go:13-161 | under any interleaving since the latest set: claims minus give-backs is 0 or 1; claimed-and-revertible exactly when it is 1 and nobody cleared or expired; pending exactly when it is 0 and nobody did; the hash is present exactly until then |
| BootstrapToken.ColumnsSinceLatestSet | internal/dbsqlc/transport.sql.go:13-179 | a closed row is active exactly when it was cleared last and expired when it was expired last; the expiry stays until a clear; mode and address are those of the last switch; nothing revokes the row |
| BootstrapToken.CompletedEnrollment | internal/dbsqlc/transport.sql.go:13-44 | an enrollment that claims and completes leaves the agent active, without token and expiry |
| BootstrapToken.ClosedTokenStaysClosed | internal/dbsqlc/transport.sql.go:13-56 | after a clear or an expire no claim wins and no give-back has an effect until the next set |
| BootstrapToken.ClaimedAndCleared | internal/dbsqlc/transport.sql.go:13-44 | one open claim does not mean a token that can be given back |
| BootstrapToken.PendingHasHash | internal/dbsqlc/transport.sql.go:13-179 | a pending row always has a hash |
| RuntimePoll.RuntimePoller.PerformRuntimePoll | internal/agent/conn/polling.go:234-278 | one poll extends what the fields say about the history: length and start of the failing streak, reported outages, buffered samples |
| RuntimePoll.RuntimePoller.RunRuntimePollLoop | internal/agent/conn/polling.go:172-190 | the same over the whole run |
| RuntimePoll.OutageDatesFromFirstFailure | internal/agent/conn/polling.go:249-268 | every reported outage dates from the first failure of its unbroken streak, at least 30 seconds before |
| RuntimePoll.LateFailureIsReported | internal/agent/conn/polling.go:262-268 | no failed poll 30 seconds into its streak is passed over |
| RuntimePoll.EarlyFailureIsNotReported | internal/agent/conn/polling.go:262-268 | no outage is reported in the first 30 seconds of a streak |
| RuntimePoll.SamplesAreSuccesses | internal/agent/conn/polling.go:270-277 | the samples that are pushed are exactly the successful polls, in order, with their times |
| RuntimePoll.SteadyAfterSuccess | internal/agent/conn/polling.go:192-202 | after a success the loop keeps its steady pace |
| RuntimePoll.BackoffProportionalIff | internal/agent/conn/polling.go:192-202 | exactly when the delay is proportional and capped at five minutes, and exactly when it is positive, in terms of the product of failures and interval |
| RuntimePoll.BackoffOverflows | internal/agent/conn/polling.go:195-198 | with a poll interval of 30 days the delay is capped up to the 3,558th failure and negative at the next, less than two weeks on |
| Reconnect.Run | internal/agent/conn/reconnect.go:74-217 | the attempt counter is the number of failures since the last connection that ended well, each failure waits once with its number, and the loop leaves at the first revoked or shut-down iteration, with that reason |
| Reconnect.KthFailureWaits | internal/agent/conn/reconnect.go:191-258 | the k-th failure in a row waits between half of and the whole of min(2^min(k-1,6), 45) seconds |
| Reconnect.DelayWithinBounds | internal/agent/conn/reconnect.go:249-258 | for every attempt number the random bound is positive and the delay lies between half the ceiling and the ceiling |
| Reconnect.EveryWaitFromOneDraw | internal/agent/conn/reconnect.go:249-258 | every wait between half the ceiling and the ceiling comes from exactly one draw |
| Reconnect.CeilingFacts | internal/agent/conn/reconnect.go:249-256 | the shift never overflows and the ceiling lies between one and 45 seconds |
| Reconnect.CeilingMonotone | internal/agent/conn/reconnect.go:249-256 | the ceiling never falls as the attempt number grows |

## Left out

- Strings that are not valid UTF-8 (the encoder replaces bad bytes, so distinct strings can share a text), and the byte form of UTF-8: a character is a Unicode scalar value.
- Numbers with a fraction or an exponent: numbers in configs and details are integers. A float that prints like an integer would be another value with the same text.
- Typed Go containers and structs inside a config, which `canonicalize` leaves to the encoder.
- SHA-256 and the RFC 3339 rendering of an instant enter as injective functions; a digest is non-empty lower-case hex.
- Case folding outside ASCII in the comparison of hashes, which no hex digit takes part in; and the report text of the audit verifier.
- Rows that still wait in the batch writer's queue: a row is stored or lost when it is produced. A digest that runs in a circle (`AuditHistory.Acyclic`). A marshaller in the details whose result changes between two calls. Storage errors while paging the audit table, and writers to the table between two pages. Event ids are not empty and times are not the zero time, so no key looks like "no cursor".
- Reordering on the wire between agent and panel, the rest of a snapshot, and the averages an upload computes. The security inventory's entry count is not truncated to 32 bits. The panel's store of instances starts empty after a restart; what it restores from the database is not modelled.
- Wrap-around of the 64-bit event number, the severity and time of an event, the urgent notify channel and the tick.
- The transport's promises: `Recv` and `Send` return once the dial context is done, and a connection attempt that returns nil has run its callback.
- Scheduling beyond what `Teardown.FairSchedule` spells out: calls return, a select whose Done case is ready again and again takes it, the bridge runs when it can. The goroutine that watches the stream's own context, which is not in the wait group.
- Nil messages in the outbound channels, the heartbeat's content and the initial messages.
- The 50 ms between a switch and the cancel of its connection; the deadline that probation puts on a dial.
- A null hash given to the bootstrap update, and the lookups in the same file.
- The delay without failures, which the agent's initialization watch decides: a parameter.
- Waits are recorded by attempt number in `Reconnect.Run`; the draw enters with `ReconnectDelay`. A wait that a shutdown cuts short is the shutdown at the top of the next iteration.
- TLS and certificate renewal, logging, enrollment reports, job execution and its in-flight tracker, self-update, and the web interface.
