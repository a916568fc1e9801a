# NeuroDesk: verified models of its stateful cores

NeuroDesk is a local AI server (written in Go), its gallery and CI scripts, and a desktop shell (in
JavaScript). This project models the parts of it that carry state or arithmetic and proves what they
are for. Code that changes fields step by step is a class or a method with a loop, proved against a
function; the properties of whole runs are lemmas about that function. Goroutines that interleave are
step systems whose invariants hold over every run.

| file | what it models |
|---|---|
| `Utf8.dfy` | UTF-8 as sections 3 and 4 of RFC 3629 define it, and `utf8.DecodeRune` |
| `TokenStream.dfy` | the streaming branch of `ModelInference`: byte chunks cut into complete runes |
| `Admission.dfy`, `AdmissionCeiling.dfy` | the process-wide backend semaphore and its release closures; what reconfiguring does to its ceiling |
| `LiveSessions.dfy` | live transcription sessions interleaved with the semaphore, as one step system |
| `LiveTranscription.dfy` | opening, receive loop and `Close` as sequential code, each a run of that system |
| `ModelSync.dfy` | `syncState` and a network of nodes sharing one ledger entry |
| `JobTrace.dfy` | the buffered progress publisher of an MCP job |
| `Pooling.dfy`, `Embeddings.dfy` | pooling and normalisation over the reals, and the decision in front of them |
| `Diarization.dfy` | speaker relabelling and per-speaker totals |
| `BuildMatrix.dfy` | sharding and merge lists of the CI build matrix |
| `GalleryText.dfy` | the README normaliser of the gallery agent |
| `AudioSnippets.dfy` | the two bounded audio accumulators kept for traces, and the streamed WAV header |
| `UpgradeChecker.dfy` | the upgrade checker's trigger channel and cache |
| `Versions.dfy` | the version comparison of the desktop updater |
| `Strings.dfy`, `Decimals.dfy`, `Sequences.dfy`, `ByteType.dfy`, `Wrappers.dfy` | shared helpers |

## Where the code falls short of its description

Each of these is stated as an exact condition, and with a lemma at a concrete input unless the condition is a mere
number.

- The rune loop's comment says "incomplete rune, wait for more bytes" for every `RuneError`. Waiting helps
  exactly when the carry buffer is a proper beginning of a rune other than U+FFFD
  (`TokenStream.WaitingHelpsIff`); after a complete U+FFFD or a byte FF nothing helps
  (`TokenStream.HopelessCarries`, `TokenStream.ReplacementCharacterSilencesStream`).
- The callback receives the reply prefix, but the streamed `LLMResponse.Response` does not contain it, unlike
  the non-streaming one (`TokenStream.StreamedResponseMatchesPredict`, `TokenStream.PrefixIsLeftOut`).
- The "process-wide ceiling" can be exceeded after a reconfiguration exactly when an operation was still
  admitted, or an acquire had already read the old channel, at that moment
  (`AdmissionCeiling.ReconfigureKeepsCeilingIff`, `AdmissionCeiling.CeilingBreaksAfterConfigure`). The configuring function is
  documented to run before any work.
- A ledger entry that does not decode makes `syncState` return before announcing. With uninterrupted syncs it
  is never repaired (`ModelSync.ConvergenceReachableIff`); with split ones it is replaced only by a sync that
  read the ledger before the entry broke (`ModelSync.GarbageCanBeReplacedIff`, `ModelSync.GarbageIsNeverRepaired`).
- When ledger read and announcement are split, an announcement can drop names, in the worst case all of them,
  and the convergence measure can rise (`ModelSync.AnnouncementKeepsNamesIff`, `ModelSync.EmptyNodeWipesLedger`,
  `ModelSync.StaleReaderIsReachable`, `ModelSync.StaleAnnouncementRaisesMeasure`).
- The receive goroutine drops an error if the stream has been cancelled, so that a Close that cancels reports none
  of it. But it looks before it stores: an error found just before the cancellation is stored after it, and that
  Close returns it (`LiveSessions.ForcedCloseReports`, `LiveSessions.LateErrorIsReported`).
- The speaker list is in first-seen order exactly up to 100 speakers
  (`Diarization.SpeakersInFirstSeenOrderIff`, `Diarization.HundredSortsBeforeEleven`).
- GitHub refuses more than 256 jobs; the script already refuses 256 (`BuildMatrix.EmitSinglearchShards`).
- A description is meant to be clean text. One that was cut is exactly if the text before the ellipsis does not
  end in a carriage return (`GalleryText.TruncatedIsCleanIff`, `GalleryText.CutCanLeaveCarriageReturn`).
- The TTS snippet is meant to be cut on a sample boundary; it is when an even number of bytes came before the
  reply that reaches the cap (`AudioSnippets.CapIsAlignedIff`, `AudioSnippets.OddChunkMisalignsCap`). It is meant to
  stay within 30 seconds; it does exactly if the audio before the header fits into 30 seconds at the rate the
  header announces (`AudioSnippets.SnippetWithinCapIff`, `AudioSnippets.FirstMessageWithinCapIff`,
  `AudioSnippets.LateHeaderBreaksCap`). A header that does not get out sets the rate all the same
  (`AudioSnippets.HeaderlessWithinCapIff`), but then a write has failed and no snippet is recorded.
- The upgrade checker falls back to the gallery on a manager's nil map without an error. Neither manager of the
  repository answers that way, and then the cache always holds the latest successful answer
  (`UpgradeChecker.CacheIsLatestAnswer`). With one that does, the cache misses a nil map whose fallback failed
  (`UpgradeChecker.CacheIsLatestAnswerIff`, `UpgradeChecker.NilAnswerLeavesOldUpgrades`).

## Model

| member | source | states |
|---|---|---|
| `Utf8.DecodeAfterEncode` | NeuroDesk/core/backend/llm.go:277 | decoding the encoding of a scalar value, whatever follows, gives that value and its width (RFC 3629, section 3) |
| `Utf8.EncodeAfterDecode` | NeuroDesk/core/backend/llm.go:277 | whatever the decoder accepts is the encoding of the scalar value it reports, so it accepts nothing else |
| `Utf8.GrammarIsImageOfEncoder` | NeuroDesk/core/backend/llm.go:277 | the byte grammar of section 4 of RFC 3629 is exactly the set of encodings |
| `TokenStream.ConsumesLongestTextPrefix` | NeuroDesk/core/backend/llm.go:274-284 | the rune loop consumes exactly the longest prefix that encodes scalar values other than U+FFFD |
| `TokenStream.LongestTextPrefixIsUnique` | NeuroDesk/core/backend/llm.go:274-284 | there is only one such prefix, so the loop's result is determined by the bytes |
| `TokenStream.ConsumptionResumes` | NeuroDesk/core/backend/llm.go:251-284 | consuming, carrying the rest over and consuming again equals consuming everything at once |
| `TokenStream.CarryIsStuck` | NeuroDesk/core/backend/llm.go:276-284 | the carry buffer never holds a complete text rune at its front |
| `TokenStream.IsTextIffConsumedWhole` | NeuroDesk/core/backend/llm.go:276-284 | the loop empties the buffer exactly when the bytes are a text |
| `TokenStream.StreamCallback.constructor` | NeuroDesk/core/backend/llm.go:215-248 | the state before the first reply: the callback has been given the reply prefix if there is one, and nothing otherwise |
| `TokenStream.StreamCallback.TokenCallback` | NeuroDesk/core/backend/llm.go:219-236 | with the usage flag one completion token more is counted before the caller sees the record |
| `TokenStream.StreamCallback.TakeCompleteRunes` | NeuroDesk/core/backend/llm.go:274-284 | moves exactly the longest text prefix out of the carry buffer |
| `TokenStream.StreamCallback.OnReply` | NeuroDesk/core/backend/llm.go:249-298 | the whole new state after one reply |
| `TokenStream.StreamPredict` | NeuroDesk/core/backend/llm.go:238-307 | response, usage, deltas and callbacks after a whole stream |
| `TokenStream.EmitsLongestTextPrefix` | NeuroDesk/core/backend/llm.go:248-298 | over any stream, emitted text plus carry is all bytes received, and the emitted text is their longest text prefix |
| `TokenStream.CutsDoNotMatter` | NeuroDesk/core/backend/llm.go:248-298 | two ways of cutting the same bytes into replies give the same text and the same carry |
| `TokenStream.StreamingMatchesPredict` | NeuroDesk/core/backend/llm.go:238-327 | the callback sees what the non-streaming branch returns, prefix included, and the carry ends empty, if and only if the bytes are a text |
| `TokenStream.StreamedResponseMatchesPredict` | NeuroDesk/core/backend/llm.go:302-327 | the returned response equals the non-streaming one if and only if there is no prefix and the bytes are a text |
| `TokenStream.OneCallPerReply` | NeuroDesk/core/backend/llm.go:249-298 | a reply causes at most one callback, which reports that reply's usage and deltas; an empty message always causes one; the record left behind has that usage and no deltas |
| `TokenStream.CallsAreDue` | NeuroDesk/core/backend/llm.go:238-298 | over any stream the whole list of callbacks: the prefix if there is one, then one for each reply that lengthens the longest text prefix of the bytes received, carrying the new part, and one for each empty message; nothing else, and no usage before the first reply but that of the prefix |
| `TokenStream.DeltasAccumulate` | NeuroDesk/core/backend/llm.go:258-264 | the response carries the deltas of all replies in order |
| `TokenStream.WaitingHelpsIff` | NeuroDesk/core/backend/llm.go:278-281 | some continuation makes the stream speak again if and only if the carry is a proper beginning of a text rune |
| `TokenStream.HopelessCarries` | NeuroDesk/core/backend/llm.go:278-281 | no continuation releases text after a complete U+FFFD or after the byte FF |
| `TokenStream.ReplacementCharacterSilencesStream` | NeuroDesk/core/backend/llm.go:274-290 | a stream that begins with U+FFFD emits nothing, however it goes on |
| `TokenStream.PrefixIsLeftOut` | NeuroDesk/core/backend/llm.go:302-327 | prefix "a" and message "b": the callback is given "ab", the streamed response is "b" |
| `Admission.BackendAdmission.Make` | NeuroDesk/core/backend/global_admission.go:37-39 | a fresh channel of the given capacity becomes the current one, older ones stay as they are |
| `Admission.BackendAdmission.ConfigureGlobalBackendAdmission` | NeuroDesk/core/backend/global_admission.go:32-41 | limit and capacity are the new limit, 1024 for one that is not positive, on a channel that is new, empty and last; older channels and handles stay |
| `Admission.BackendAdmission.AcquireGlobalBackendSlot` | NeuroDesk/core/backend/global_admission.go:45-66 | with nothing configured, the first slot of a channel of 1024; otherwise a handle on the current channel if it has room, or else a refusal naming a limit that is fully used |
| `Admission.BackendAdmission.Release` | NeuroDesk/core/backend/global_admission.go:60-62 | the first call takes one element from the handle's own channel without blocking, later calls change nothing |
| `Admission.BackendAdmission.GlobalBackendInFlight` | NeuroDesk/core/backend/global_admission.go:69-73 | the number of unreleased handles of the current channel |
| `Admission.LimitInForce` | NeuroDesk/core/backend/global_admission.go:33-55 | the limit and the channels after a configuration and after the lazy initialisation, for the interleaved steps too |
| `Admission.EventKeepsValid` | NeuroDesk/core/backend/global_admission.go:33-65 | every step of every goroutine keeps the accounting invariant |
| `Admission.EveryRunIsAccounted` | NeuroDesk/core/backend/global_admission.go:33-65 | in every interleaving each generation's occupancy is its number of unreleased handles, within capacity; no begun release blocks; a refusal names the refusing channel's capacity; a repeated release does nothing |
| `Admission.ReleaseNeverBlocks` | NeuroDesk/core/backend/global_admission.go:60-62 | an unreleased handle finds an element to receive |
| `Admission.ReleaseStaysInItsGeneration` | NeuroDesk/core/backend/global_admission.go:60-62 | a release lowers its own generation by one and no other, the current limit and channel stay |
| `Admission.ReleasedAtMostOnce` | NeuroDesk/core/backend/global_admission.go:61-62 | over any run the receive of a handle happens exactly when it goes from unreleased to released, so at most once |
| `AdmissionCeiling.UnreleasedIsInFlightPlusStale` | NeuroDesk/core/backend/global_admission.go:68-73 | the reported in-flight number is within the limit and misses exactly the handles of replaced channels |
| `AdmissionCeiling.ConfiguredCeilingIsExact` | NeuroDesk/core/backend/global_admission.go:33-65 | from any state, a configuration followed by any number of acquires admits exactly the first n, n being the limit or 1024, on new handles, and refuses every later one with n |
| `AdmissionCeiling.ReconfigureKeepsCeilingIff` | NeuroDesk/core/backend/global_admission.go:31-41 | after a reconfiguration the limit can be exceeded if and only if something was admitted or about to be admitted on the old channel |
| `AdmissionCeiling.CeilingBreaksAfterConfigure` | NeuroDesk/core/backend/global_admission.go:31-41 | from the program start, limit one configured twice with an operation admitted between: two operations run |
| `LiveSessions.StepKeepsValid` | NeuroDesk/core/backend/transcript_live.go:211-291 | every step of opens, receivers and closes keeps the session and slot invariant |
| `LiveSessions.RefinesAdmission` | NeuroDesk/core/backend/transcript_live.go:219-222 | the sessions' use of the semaphore is a run of the admission system |
| `LiveSessions.SlotIsReturnedExactlyOnce` | NeuroDesk/core/backend/transcript_live.go:68-87 | over all runs an admitted open gives its slot back once, and has done so exactly when it failed or was closed |
| `LiveSessions.SlotOutlivesReceiver` | NeuroDesk/core/backend/transcript_live.go:70-85 | the release of a session begins only after its stream was cancelled and its receive goroutine, if started, has ended; until then the goroutine's slot occupies its channel |
| `LiveSessions.AllClosesAgree` | NeuroDesk/core/backend/transcript_live.go:68-87 | all Close calls that returned gave the same error, and the slot is back |
| `LiveSessions.NothingHappensAfterClose` | NeuroDesk/core/backend/transcript_live.go:68-87 | after a Close returned nothing is delivered and no result or slot changes any more |
| `LiveSessions.DeliversInOrder` | NeuroDesk/core/backend/transcript_live.go:270-288 | the callback sees every event that is not a keep-alive, in order, one at a time |
| `LiveSessions.OpenReportsFailure` | NeuroDesk/core/backend/transcript_live.go:229-259 | over every run an open that fails ends with the error of the handshake step that failed |
| `LiveSessions.CloseReportsSendErrorFirst` | NeuroDesk/core/backend/transcript_live.go:68-83 | over every run each Close reports the error of CloseSend if that failed and otherwise the receive error, never the other way round |
| `LiveSessions.CancellationSettlesReceiveError` | NeuroDesk/core/backend/transcript_live.go:273-279 | from a cancellation on, by the caller or by Close, no receive error is kept but one judged before it |
| `LiveSessions.ForcedCloseReports` | NeuroDesk/core/backend/transcript_live.go:70-83 | in every run in which a drain timer fires, every Close reports what is settled when the stream is cancelled, whatever follows: the CloseSend error, and without one the receive error the goroutine has stored or has already decided to store |
| `LiveSessions.ForcedCloseReportsOnlySendError` | NeuroDesk/core/backend/transcript_live.go:70-83 | so if the goroutine is then still receiving or handling an event, every Close reports the CloseSend error and nothing else |
| `LiveSessions.LateErrorIsReported` | NeuroDesk/core/backend/transcript_live.go:70-83 | a run from the start in which `Recv` fails, the stream is cancelled before the goroutine has stored the error, and Close still returns it although CloseSend succeeded |
| `LiveSessions.ActionsAreRun` | NeuroDesk/core/backend/transcript_live.go:68-87 | whatever a session can do by itself is a run of the whole system from every valid state: no other session and no reconfiguration stands in its way |
| `LiveSessions.NextActionIsEnabled` | NeuroDesk/core/backend/transcript_live.go:68-87 | a failing open or running Close always has a next step, and it brings the slot's return nearer |
| `LiveSessions.CanAlwaysFinish` | NeuroDesk/core/backend/transcript_live.go:68-87 | from every reachable state it can give the slot back within nine steps of its own |
| `LiveTranscription.ModelTranscriptionLive` | NeuroDesk/core/backend/transcript_live.go:211-291 | refused at capacity; otherwise a session holding the one new slot exactly if open, config and ready ack succeed, the backend's own error exactly if it is the first of the three, the broken-contract error exactly for a first response that is no ack; a failure leaves every channel as before |
| `LiveTranscription.LiveTranscriptionSession.ReceiveAll` | NeuroDesk/core/backend/transcript_live.go:270-288 | the whole new state after the goroutine has received the given responses |
| `LiveTranscription.LiveTranscriptionSession.Close` | NeuroDesk/core/backend/transcript_live.go:68-87 | the first call drains, records the error and frees one element of its channel; later calls change nothing and return the same error |
| `LiveTranscription.ReceivingIsRun` | NeuroDesk/core/backend/transcript_live.go:270-288 | the loop is a run of the step system |
| `LiveTranscription.LoopDelivers` | NeuroDesk/core/backend/transcript_live.go:281-286 | it delivers exactly the events before the first error that are not keep-alives |
| `LiveTranscription.ReceiverEndsIff` | NeuroDesk/core/backend/transcript_live.go:271-280 | it ends exactly when a receive fails, changing nothing but its own fields |
| `LiveTranscription.LoopKeepsErrorIff` | NeuroDesk/core/backend/transcript_live.go:274-279 | the error is kept if and only if it is neither the end of the stream nor after the cancellation |
| `LiveTranscription.ClosingIsRun` | NeuroDesk/core/backend/transcript_live.go:68-87 | the first Close, from call to return, is a run of the step system |
| `LiveTranscription.CloseReportsFirstError` | NeuroDesk/core/backend/transcript_live.go:70-83 | which error Close reports: that of CloseSend, or else one kept before, or else that of a break while Close still waits, or none |
| `ModelSync.SyncState` | NeuroDesk/core/application/p2p.go:173-241 | the ledger entry and the install requests after one sync, in all three cases of the entry, position by position |
| `ModelSync.SyncIsInOrder` | NeuroDesk/core/application/p2p.go:184-238 | one request for each position of the list read that names a model not held, none for the others, in that order, so none twice if the list has none twice; the announced list is the list read followed by the missing own names in their order |
| `ModelSync.NotInIsDifference` | NeuroDesk/core/application/p2p.go:199-204 | the comparison loop computes the set difference |
| `ModelSync.SyncIsListReadWrite` | NeuroDesk/core/application/p2p.go:176-238 | a sync without interference is its listing, reading and writing parts in a row |
| `ModelSync.LedgerHoldsOnlyHeldNames` | NeuroDesk/core/application/p2p.go:176-238 | with split reads and writes and any additions and removals, the ledger only holds names some node has held |
| `ModelSync.LedgerStaysDistinct` | NeuroDesk/core/application/p2p.go:199-214 | duplicate-free local lists keep the ledger duplicate-free |
| `ModelSync.QuiescentIffEqual` | NeuroDesk/core/application/p2p.go:198-238 | no node's sync would announce or install if and only if every node holds the ledger's names (or the entry does not decode, or there is no node) |
| `ModelSync.StepLowersMeasure` | NeuroDesk/core/application/p2p.go:198-238 | with atomic syncs and no removals the measure never rises, and every adding announcement and new install lowers it |
| `ModelSync.ProgressIsBounded` | NeuroDesk/core/application/p2p.go:198-238 | any run has at most as many progress steps as the measure had at its start |
| `ModelSync.EveryTwoRoundsConverge` | NeuroDesk/core/application/p2p.go:173-241 | under every schedule, once every node has synced in a first and again in a second run, with the second run's installs successful and no request left, the ledger and every node hold the union |
| `ModelSync.RunIsQuiescentIffConverged` | NeuroDesk/core/application/p2p.go:198-238 | any run has reached the union exactly when no sync would announce or install anything any more |
| `ModelSync.RunGrows` | NeuroDesk/core/application/p2p.go:198-238 | over any run the ledger and every node's models only grow, and with successful installs so do models plus requests |
| `ModelSync.ConvergingRun` | NeuroDesk/core/application/p2p.go:173-241 | there is always a run that converges |
| `ModelSync.ConvergenceReachableIff` | NeuroDesk/core/application/p2p.go:184-194 | with uninterrupted syncs, convergence can be reached if and only if the entry, if any, decodes |
| `ModelSync.GarbageCanBeReplacedIff` | NeuroDesk/core/application/p2p.go:184-214 | with split syncs, an entry that does not decode can be replaced if and only if some sync read the ledger before and has an announcement pending |
| `ModelSync.GarbageIsNeverRepaired` | NeuroDesk/core/application/p2p.go:190-194 | one node at rest in front of such an entry: no run of any steps repairs it |
| `ModelSync.AnnouncementKeepsNamesIff` | NeuroDesk/core/application/p2p.go:184-214 | completing any split sync keeps all ledger names if and only if it announces nothing, or each name was read or is held by the announcer |
| `ModelSync.EmptyNodeWipesLedger` | NeuroDesk/core/application/p2p.go:184-188 | a node without models that read the missing key announces the empty list over another node's names |
| `ModelSync.StaleReaderIsReachable` | NeuroDesk/core/application/p2p.go:184-214 | two fresh nodes can reach a state with a stale reader |
| `ModelSync.StaleAnnouncementRaisesMeasure` | NeuroDesk/core/application/p2p.go:184-214 | in it an announcement that adds a name raises the measure |
| `JobTrace.StreamPublisher.FlushStreamBuf` | NeuroDesk/core/cli/agent_worker.go:455-468 | the non-empty buffers are published, reasoning first, and reset |
| `JobTrace.StreamPublisher.OnStatus` | NeuroDesk/core/cli/agent_worker.go:474-479 | flush, then the status |
| `JobTrace.StreamPublisher.OnToolCallResult` | NeuroDesk/core/cli/agent_worker.go:480-485 | flush, then the tool result |
| `JobTrace.StreamPublisher.OnStream` | NeuroDesk/core/cli/agent_worker.go:486-502 | flush on a change of type, then buffer or publish |
| `JobTrace.ExecuteJob` | NeuroDesk/core/cli/agent_worker.go:470-510 | the log published over a job's events and the final flush |
| `JobTrace.BufferingIsTransparent` | NeuroDesk/core/cli/agent_worker.go:451-502 | at every moment the log plus the buffers is, character for character, what an unbuffered publisher has sent |
| `JobTrace.JobRefinesUnbuffered` | NeuroDesk/core/cli/agent_worker.go:451-510 | the log of a finished job expands to the unbuffered one |
| `JobTrace.BlocksAreNotEmpty` | NeuroDesk/core/cli/agent_worker.go:451-510 | no published text block is empty, and the buffers are never both in use |
| `JobTrace.AtomicEventsFlush` | NeuroDesk/core/cli/agent_worker.go:474-500 | a status, tool result or tool call comes after all text before it and leaves nothing buffered |
| `JobTrace.BlocksAreSeparated` | NeuroDesk/core/cli/agent_worker.go:474-502 | every change of stream type, to and from any type, and every status, tool result and tool call ends the block before it: a block boundary of the finished log falls exactly there |
| `JobTrace.TokensBecomeOneBlock` | NeuroDesk/core/cli/agent_worker.go:451-502 | any number of tokens of one kind in a row, after another kind or an atomic event, become one block |
| `Pooling.ReshapeEmbeddings` | NeuroDesk/core/backend/pooling.go:38-50 | succeeds exactly on a matching positive shape; row i is the i-th piece of dim numbers, and the rows concatenate back to the payload |
| `Pooling.PoolMean` | NeuroDesk/core/backend/pooling.go:53-66 | every component is its column's sum over the number of tokens |
| `Pooling.PoolLast` | NeuroDesk/core/backend/pooling.go:69-74 | the last token's vector |
| `Pooling.PoolDecayedMean` | NeuroDesk/core/backend/pooling.go:80-97 | every component is its column's weighted sum over the positive weight sum |
| `Pooling.ComputeDivisor` | NeuroDesk/core/backend/pooling.go:106-127 | the loops of all four cases compute the norm's defining sum or maximum |
| `Pooling.NormalizeEmbedding` | NeuroDesk/core/backend/pooling.go:105-140 | every component times the reciprocal divisor, zero when the divisor is not positive; a negative setting changes nothing |
| `Pooling.MeanIsBetween` | NeuroDesk/core/backend/pooling.go:53-97 | every component lies between the least and the greatest value of its column |
| `Pooling.SchemesArePositiveMeans` | NeuroDesk/core/backend/pooling.go:53-97 | both means use positive weights, so the bound holds for both |
| `Pooling.ColumnSumIsWeighted` | NeuroDesk/core/backend/pooling.go:54-92 | row i enters a column sum with the weight w[i] and no other: changing one entry changes the sum by the weighted difference |
| `Pooling.DecayWeightsGrow` | NeuroDesk/core/backend/pooling.go:76-87 | the weights increase strictly, the last is 1, and a half-life halves them |
| `Pooling.SingleTokenSchemesAgree` | NeuroDesk/core/backend/pooling.go:53-97 | for one token all three schemes agree |
| `Pooling.MaxAbsIsMaximum` | NeuroDesk/core/backend/pooling.go:110-115 | the max-abs loop's value bounds all magnitudes and is one of them |
| `Pooling.NormalisingForgetsScale` | NeuroDesk/core/backend/pooling.go:105-140 | for every embd_normalize of 0 or more, positive scaling does not change the result |
| `Pooling.MeanDivisionIsIrrelevant` | NeuroDesk/core/backend/pooling.go:62-140 | so dividing by any positive total first makes no difference |
| `Pooling.NormalisedHasUnitNorm` | NeuroDesk/core/backend/pooling.go:99-140 | a non-zero vector ends with p-norm 1 or largest magnitude 32760, and zero stays zero |
| `Pooling.NormalisingKeepsDirection` | NeuroDesk/core/backend/pooling.go:105-140 | a non-zero vector is multiplied by one positive number in every component, which with the norm fixes the result |
| `Pooling.ThreeFourFive` | NeuroDesk/core/backend/pooling.go:105-140 | (3, -4) becomes (0.6, -0.8) under L2, (3/7, -4/7) under L1 and (24570, -32760) under 0 |
| `Embeddings.EmbdNormalizeFromOptions` | NeuroDesk/core/backend/pooling.go:148-160 | the norm is that of the last option that sets one, 2 by default |
| `Embeddings.LastSettingWins` | NeuroDesk/core/backend/pooling.go:148-160 | settings after which none follows decide, whatever comes before |
| `Embeddings.WrittenNormIsRead` | NeuroDesk/core/backend/pooling.go:151-157 | either option name followed by a number, a minus sign and any white space around it allowed, is read as that number |
| `Embeddings.NormIsSetIff` | NeuroDesk/core/backend/pooling.go:150-158 | an option sets n if and only if it is one of the two names, a colon and, but for white space, a numeral for n within 64 bits; every other option sets nothing |
| `Embeddings.HalfLifeIsAsConfigured` | NeuroDesk/core/backend/pooling.go:178-182 | a token earlier by the configured half-life, or by 256 tokens if that is not positive, weighs half as much |
| `Embeddings.PoolEmbeddingResult` | NeuroDesk/core/backend/pooling.go:167-187 | which inputs succeed and which error the others get; a success is the normalised pooling of rows that concatenate to the payload |
| `Embeddings.FinishEmbeddingResult` | NeuroDesk/core/backend/embeddings.go:44-75 | exactly when it succeeds, passes the vector through, or fails with each of its six errors; pooling only on a declared per-token layout, with exactly dim numbers |
| `Embeddings.MeansNeedNoDivision` | NeuroDesk/core/backend/pooling.go:53-140 | with embd_normalize of 0 or more, the final embedding of both means is the normalised undivided column sums |
| `Diarization.RelabelSegments` | NeuroDesk/core/backend/diarization.go:107-138 | segments, label order and statistics after the whole loop |
| `Diarization.DiarizationResultFromProto` | NeuroDesk/core/backend/diarization.go:90-160 | the whole result, the nil response and the speaker-count fallback included |
| `Diarization.IdsAreDistinct` | NeuroDesk/core/backend/diarization.go:132 | different speaker numbers get different ids, beyond two digits too |
| `Diarization.RelabellingIsBijective` | NeuroDesk/core/backend/diarization.go:114-137 | two output segments share an id if and only if the input segments they come from share a label (empty read as "0"), and the id is the label's first-seen position |
| `Diarization.OutputFollowsInput` | NeuroDesk/core/backend/diarization.go:110-138 | one output segment per non-nil input segment, in order, with its label, times and text |
| `Diarization.FirstSeenIsByOccurrence` | NeuroDesk/core/backend/diarization.go:114-123 | the labels are those that occur, listed by the position of their first occurrence |
| `Diarization.FirstSeenIsDistinct` | NeuroDesk/core/backend/diarization.go:118-123 | no label is listed twice |
| `Diarization.TotalsAreConserved` | NeuroDesk/core/backend/diarization.go:124-157 | the sorted speakers' counts and durations sum to those of all non-nil segments |
| `Diarization.TotalsMatchSegments` | NeuroDesk/core/backend/diarization.go:124-154 | every reported speaker has the number of output segments under its id and the sum of their positive lengths |
| `Diarization.SortIsSortedPermutation` | NeuroDesk/core/backend/diarization.go:155-157 | sorting gives a sorted permutation |
| `Diarization.SpeakersInFirstSeenOrderIff` | NeuroDesk/core/backend/diarization.go:145-157 | the list is in first-seen order if and only if there are at most 100 speakers |
| `Diarization.HundredSortsBeforeEleven` | NeuroDesk/core/backend/diarization.go:155-157 | SPEAKER_100 sorts before SPEAKER_11 |
| `BuildMatrix.GroupBySuffix` | NeuroDesk/scripts/changed-backends.js:166-172 | the groups of the non-empty suffixes, keyed in first-appearance order |
| `BuildMatrix.ComputeMergeMatrix` | NeuroDesk/scripts/changed-backends.js:165-192 | one merge entry per listed suffix with the tag-latest of its first entry |
| `BuildMatrix.EverySuffixIsListed` | NeuroDesk/scripts/changed-backends.js:167-172 | every non-empty suffix of the entries is listed |
| `BuildMatrix.SuffixesInFirstAppearanceOrder` | NeuroDesk/scripts/changed-backends.js:166-190 | each listed suffix is non-empty, listed once, in order of first appearance |
| `BuildMatrix.SplitIsPartition` | NeuroDesk/scripts/changed-backends.js:200-204 | every entry is on exactly one side, by its platform tag |
| `BuildMatrix.SplitKeepsOrder` | NeuroDesk/scripts/changed-backends.js:200-204 | each side lists its entries in the order of the matrix, one for each position |
| `BuildMatrix.ChunkEqually` | NeuroDesk/scripts/changed-backends.js:224-235 | exactly the asked number of chunks, concatenating to the list, of the balanced sizes |
| `BuildMatrix.ChunksAreBalanced` | NeuroDesk/scripts/changed-backends.js:220-235 | later chunks are never larger, and sizes differ by at most one |
| `BuildMatrix.FirstShardOverflowsIff` | NeuroDesk/scripts/changed-backends.js:246 | the first shard reaches 256 if and only if there are 1021 or more entries |
| `BuildMatrix.EmitSinglearchShards` | NeuroDesk/scripts/changed-backends.js:239-261 | throws if and only if there are 1021 or more entries, then before writing; otherwise four outputs with flags and merge lists hold the whole list |
| `BuildMatrix.EmitLinuxMatrices` | NeuroDesk/scripts/changed-backends.js:263-274 | the multi-arch list is the entries with a platform tag, in order, with its merge list; unless 1021 or more are left, the four shard outputs hold the others, in order |
| `GalleryText.CleanTextContent` | NeuroDesk/.github/gallery-agent/helpers.go:216-233 | the loop with its flag computes the cleaned text |
| `GalleryText.CleanTextIsClean` | NeuroDesk/.github/gallery-agent/helpers.go:214-233 | no trailing blanks on any line and no two adjacent empty lines |
| `GalleryText.CleaningIsIdempotent` | NeuroDesk/.github/gallery-agent/helpers.go:216-233 | cleaning twice is cleaning once |
| `GalleryText.ContentIsKept` | NeuroDesk/.github/gallery-agent/helpers.go:220-231 | the lines with content survive unchanged but for trailing blanks, in order |
| `GalleryText.KeepLines` | NeuroDesk/.github/gallery-agent/helpers.go:181-192 | lines flattened to the margin without tables and rules |
| `GalleryText.LastParagraphBreak` | NeuroDesk/.github/gallery-agent/helpers.go:204 | the last position of an empty line, or -1 |
| `GalleryText.FlattenDescription` | NeuroDesk/.github/gallery-agent/helpers.go:181-199 | the result of the stages before the truncation |
| `GalleryText.Truncate` | NeuroDesk/.github/gallery-agent/helpers.go:201-211 | a short text unchanged, a long one cut at a paragraph break or at 1200 bytes, layout kept |
| `GalleryText.ExtractDescription` | NeuroDesk/.github/gallery-agent/helpers.go:181-211 | whatever the regex stages give: at most 1205 bytes, no line starting with a space or tab, no leading empty line, no two adjacent empty lines |
| `GalleryText.FlattenedIsClean` | NeuroDesk/.github/gallery-agent/helpers.go:193-199 | a description that was not cut is clean: cleaning it again changes nothing |
| `GalleryText.KeptLinesAreUnmarked` | NeuroDesk/.github/gallery-agent/helpers.go:181-191 | a line survives the line pass, unindented and in its place, if and only if it does not begin with a bar or one of the three rule marks |
| `GalleryText.DescriptionKeepsContent` | NeuroDesk/.github/gallery-agent/helpers.go:181-199 | the content of the description before the cut is exactly that of the surviving lines, in order |
| `GalleryText.CutPlace` | NeuroDesk/.github/gallery-agent/helpers.go:203-207 | the cut is at the last empty line between byte 400 and byte 1200, or at byte 1200 if there is none |
| `GalleryText.TruncatedIsCleanIff` | NeuroDesk/.github/gallery-agent/helpers.go:201-211 | a description that was cut is clean if and only if the text before the ellipsis does not end in a carriage return |
| `GalleryText.CutCanLeaveCarriageReturn` | NeuroDesk/.github/gallery-agent/helpers.go:201-211 | 1198 letters, a line feed, a carriage return and one letter: the description is not clean |
| `AudioSnippets.EncodedSampleReadsBack` | NeuroDesk/pkg/sound/float32.go:16-28 | a sample encodes to the little-endian form of its clamped value |
| `AudioSnippets.EncodingReadsBack` | NeuroDesk/pkg/sound/float32.go:16-28 | any number of samples reads back, two bytes each, as their clamped values |
| `AudioSnippets.LiveTraceState.AddPCM` | NeuroDesk/core/backend/transcript_live.go:132-146 | the new trace state: all samples counted, as many kept as there is room for |
| `AudioSnippets.LiveTraceState.Observe` | NeuroDesk/core/backend/transcript_live.go:148-166 | the event counters and the final text |
| `AudioSnippets.LiveSnippetIsPrefix` | NeuroDesk/core/backend/transcript_live.go:132-146 | however the audio is chunked, the snippet is the encoding of exactly the first min(fed, cap) samples |
| `AudioSnippets.LiveCountersAreTallies` | NeuroDesk/core/backend/transcript_live.go:148-166 | whatever is fed meanwhile, the counters are the numbers of received events of each kind and the text is the last final one |
| `AudioSnippets.TtsStream.OnReply` | NeuroDesk/core/backend/tts.go:225-284 | the whole new state after one reply, with either write failing |
| `AudioSnippets.TtsStream.Collect` | NeuroDesk/core/backend/tts.go:271-281 | the snippet and its capped flag after one chunk |
| `AudioSnippets.TtsStreamIsValid` | NeuroDesk/core/backend/tts.go:214-284 | over every stream the snippet is a prefix of all audio, all of it until capped; the total counts everything; at most one header is sent; an error is kept exactly when some write failed |
| `AudioSnippets.CappedSnippetIsFrozen` | NeuroDesk/core/backend/tts.go:271-281 | a capped snippet never changes, the sample rate is fixed after the header, the total never falls |
| `AudioSnippets.CapIsAlignedIff` | NeuroDesk/core/backend/tts.go:275-280 | the cut falls on a sample boundary if and only if an even number of bytes came before the capping reply |
| `AudioSnippets.CappedSnippetIsFull` | NeuroDesk/core/backend/tts.go:271-281 | the capping reply fills the snippet to 60 bytes per hertz or one less, unless it was longer already |
| `AudioSnippets.OddChunkMisalignsCap` | NeuroDesk/core/backend/tts.go:275-280 | one byte and then 960000: the snippet has 959999 bytes |
| `AudioSnippets.SnippetIsPrefixOfReplies` | NeuroDesk/core/backend/tts.go:262-281 | the snippet is a prefix of the audio of all replies but those whose header failed, all of it until capped; the total is its length |
| `AudioSnippets.HeadersCarryLatestRate` | NeuroDesk/core/backend/tts.go:225-268 | over every stream, which replies attempt a header and the rate each carries, the one announced last or 16000; the error kept is that of the latest failed write |
| `AudioSnippets.SnippetWithinCapIff` | NeuroDesk/core/backend/tts.go:225-281 | from the header on the snippet is within 30 seconds if and only if the bytes gathered from the replies before it fit 30 seconds at the announced rate |
| `AudioSnippets.HeaderlessWithinCapIff` | NeuroDesk/core/backend/tts.go:225-281 | and as long as no header has got out, if and only if the gathered bytes fit 30 seconds at the rate last announced, failed headers included |
| `AudioSnippets.FirstMessageWithinCapIff` | NeuroDesk/core/backend/tts.go:225-281 | if the first message is the header: if and only if the audio before it fits 30 seconds at the announced rate or that rate is at least 16000 |
| `AudioSnippets.HeaderFirstIsWithinCap` | NeuroDesk/core/backend/tts.go:225-281 | a header before all audio keeps the snippet within 30 seconds |
| `AudioSnippets.LateHeaderBreaksCap` | NeuroDesk/core/backend/tts.go:225-281 | 960000 bytes and then a header announcing 8000: the snippet stays too long for good |
| `UpgradeChecker.Checker.TriggerCheck` | NeuroDesk/core/application/upgrade_checker.go:139-145 | afterwards a token waits, whether or not one did before |
| `UpgradeChecker.Checker.GetAvailableUpgrades` | NeuroDesk/core/application/upgrade_checker.go:148-158 | a copy of the cached upgrades, empty for a nil map |
| `UpgradeChecker.Checker.RunCheck` | NeuroDesk/core/application/upgrade_checker.go:160-250 | the cache after a check, and the backends asked to upgrade: all listed ones once each, or none |
| `UpgradeChecker.TriggerIsNotLost` | NeuroDesk/core/application/upgrade_checker.go:112-145 | after any trigger, dropped ones included, a token waits until a check starts later on |
| `UpgradeChecker.TokenIsServed` | NeuroDesk/core/application/upgrade_checker.go:109-126 | in every run without a stop, with ticks and triggers arriving at any time, a token not yet taken stays, the loop does not exit, and it has made at most six moves plus three per tick |
| `UpgradeChecker.LoopCanMove` | NeuroDesk/core/application/upgrade_checker.go:115-126 | and it can always move, given an answer to its query |
| `UpgradeChecker.TriggersCoalesce` | NeuroDesk/core/application/upgrade_checker.go:139-145 | triggered checks are never more than triggers, and at least one (or a waiting token) if there was any |
| `UpgradeChecker.OnlyStopExits` | NeuroDesk/core/application/upgrade_checker.go:115-126 | the loop exits only after a stop |
| `UpgradeChecker.CheckFollowsSource` | NeuroDesk/core/application/upgrade_checker.go:160-202 | a check stores the manager's map, keeps the cache on the manager's error, and asks the gallery only if there is no manager or it gave neither; upgrades start exactly if that answer has entries and they are switched on |
| `UpgradeChecker.RecheckFollowsSource` | NeuroDesk/core/application/upgrade_checker.go:233-248 | the re-check stores the manager's answer if there is a manager, even a nil map, and otherwise the gallery's |
| `UpgradeChecker.CacheIsLatestSuccess` | NeuroDesk/core/application/upgrade_checker.go:160-248 | at every moment of every run the cache is the latest successful outcome a check acted on, and the check time that of the latest check, failed or not |
| `UpgradeChecker.CacheIsLatestAnswer` | NeuroDesk/core/application/upgrade_checker.go:160-248 | with managers that answer with an error or a map, the cache is the latest successful one of all answers received |
| `UpgradeChecker.CacheIsLatestAnswerIff` | NeuroDesk/core/application/upgrade_checker.go:165-186 | with any manager, it is so if and only if no nil map has been dropped by a failing fallback since the latest successful outcome, or that outcome is a nil map too |
| `UpgradeChecker.NilAnswerLeavesOldUpgrades` | NeuroDesk/core/application/upgrade_checker.go:165-186 | a run in which a nil map and a failing gallery leave older upgrades in the cache |
| `Versions.CompareVersions` | NeuroDeskApp/updater.js:14-25 | each of the three results exactly when the zero-padded components are lexicographically smaller, greater or the same |
| `Versions.AtMostOneWay` | NeuroDeskApp/updater.js:18-24 | the order is antisymmetric and strict |
| `Versions.OrderIsTotal` | NeuroDeskApp/updater.js:17-24 | of two versions one is smaller or they compare as the same |
| `Versions.OrderIsTransitive` | NeuroDeskApp/updater.js:17-24 | transitive, and strict as soon as one link is |
| `Versions.SameIffTrailingZeros` | NeuroDeskApp/updater.js:17-24 | 0 if and only if the components agree after dropping trailing zeros |
| `Versions.PartReads` | NeuroDeskApp/updater.js:15-16 | leading white space and a sign are accepted, text after the digits is ignored, a part without digits is 0 |
| `Versions.MissingVersionIsZero` | NeuroDeskApp/updater.js:15-17 | a missing version, and one without dots and digits, counts as 0 |
| `Versions.WrittenVersionReadsBack` | NeuroDeskApp/updater.js:15-16 | a written version reads back as its numbers, a suffix such as -beta being ignored |
| `Strings.SplitUndoesJoin` | NeuroDesk/.github/gallery-agent/helpers.go:193-217 | splitting at the separator undoes joining |
| `Strings.JoinUndoesSplit` | NeuroDesk/.github/gallery-agent/helpers.go:182-193 | joining undoes splitting |
| `Strings.SplitOfConcat` | NeuroDesk/.github/gallery-agent/helpers.go:182-217 | splitting a concatenation only puts together the part across the seam |

## Left out

- gRPC, NATS, PostgreSQL, Electron, HTTP, WSL, clocks and files: backend answers, errors, timer choices and the current time are arguments.
- The model loader, watchdog, router, prefix cache and job store, which only appear as call points.
- llm.go: log probabilities and timings in the usage record, tokenisation errors, and the return value of the token callback, which the code ignores.
- global_admission.go: memory visibility; the lock and the channel operations are atomic steps.
- transcript_live.go: sessions opened with tracing off, which keep no snippet; trace recording; and the conversion of words and final results; an event is a payload that is or is not a keep-alive.
- LiveTranscription.LiveTranscriptionSession.Close: the goroutine's remaining receives are passed in as the responses it gets while Close waits; free interleavings are in `LiveSessions`.
- p2p.go: the periodic re-announcement and expiry of ledger entries, uuid errors, and the ledger's own peer-to-peer transport; the ledger entry is one shared cell.
- pooling.go: floating-point rounding; vectors are over the reals, and the root and the power of two are arguments known only by their algebraic laws.
- embeddings.go: `ModelEmbedding`, which only wraps the decision in calls and traces.
- diarization.go: `toProto`, and the float32 to float64 conversions.
- changed-backends.js: `filterMatrix`, the GitHub API, the darwin matrix and per-backend flags, and the console warning about disagreeing legs, which does not change the result.
- helpers.go: the front-matter and regex stages of `extractDescription`, whose output is an arbitrary text; cutting at a byte may split a character.
- AudioSnippets.EncodedSampleReadsBack: samples are reals; NaN, and samples whose product with 32767 leaves the 32-bit range, where Go's conversion depends on the platform, are not modelled.
- tts.go: the JSON decoding of the sample rate and its conversion to 32 bits, and the bytes of the WAV header.
- upgrade_checker.go: the distributed leader loop, which runs in another library, and the copying of log lines.
- updater.js: numbers are exact integers, not doubles, so components above 2^53 are not rounded; download and dialogs.
