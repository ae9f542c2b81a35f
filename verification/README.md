# Verified models of the scene stream, source boundary, qualification and guidance control logic

This project models seven parts of the railway vehicle dynamics repository and proves what they promise over every input, schedule or history.

- **Datagram reassembly** (`OrderedTables`, `SceneStream`, `RunReports`, `Reassembly*`, `SceneReceiver`). `Reassembly.Reassemble` is one receive step on values, `ReassemblyInvariant.Feed` adds counters and reports, and the classes `Receiver` and `RunReport` update the same tables in place and are proved equal to it. A sender is any map from (run, kind, sequence) to a time and bytes; the two payload decoders are arbitrary deterministic functions that may fail.
- **Source closure** (`SourceClosure`, `ClosureWalk`, `ClosureOrders`, `SourceVerdicts`, `CommentScanner`, `CommentTokens`). Reachability is defined by chains of edges, independently of the worklist; the stack walk with its two edge kinds and second visits is proved to compute it, and so is a walk that takes entries in any order. The comment scanner is compared with a classifier that looks at one position at a time, and with a grammar of code, comments and literals over the whole text.
- **Publication** (`Publication`). Any number of runners and failure publishers act on four names; each existence check, creation, write, rename, link and removal is its own step, and all interleavings from any initial disk are covered. The methods of the class perform the same steps.
- **Control** (`TorqueAllocation`, `ControlTransaction`, `ControlSession`, `ExperimentRuns`, `SimpackRun`). Torques are reals with an explicit infinite limit; observation, evaluator, controller, conditioner and torque set may each fail at any attempt. The session object refines a call machine, and both run loops are proved over it or over the bare transaction.
- **Work accounting** (`WorkLedger`, `IntegrationRun`, `IntegrationRunObjects`). The backend has eight 64-bit counters that only grow within an epoch, and a true lifetime total that the code never sees; the ledger is compared with that total.
- **Model text** (`TextLines`, `Readings`, `ModelEditor`, `ScopedAssignments`, `ScopedLines`, `ResultSettings`, `TrackDefinitions`, `SpckPreparation`, `HistoricalLines`, `RealtimeModel`, `WriterReader`, `RealtimeLines`, `RealtimeDictionary`). Text is characters; lines are recovered by splitting and joined again. Lens laws are proved of the in-place editor, and the Python writer is proved against the C++ reader.
- **Station projection** (`StationProjection`). One forward pass is compared with an independent bisection for each target.

Five claims one might expect turn out false of the code, and the project proves exactly when they hold:

- The ledger's total misses an epoch when the next one is refused after a reinitialization, over a whole run exactly the work of the epochs so lost, and the statistics can still read as complete (`IntegrationRun.HistoryExact`, `IntegrationRun.LostEpochIsExactIff`, `IntegrationRun.LosesEpochIff`, `IntegrationRun.LossUnmarkedIff`, `IntegrationRun.LostEpochCanLookComplete`).
- The precision setting inserted behind an anchor line without a final newline joins that line and can change its value (`ResultSettings.SettingReadsBack`, `ResultSettings.SettingTwice`, `ResultSettings.AnchorKeepsValueIff`, `ResultSettings.AnchorAlone`).
- Scanning twice with literals blanked can change text again, since the closing quotes are gone (`CommentScanner.RescanBlankedText`, `CommentScanner.BlankedIsNotIdempotent`).
- The saturated torque branch gives the largest feasible common torque only when both limits are equal (`TorqueAllocation.SaturationIsLargestIff`).
- The realtime reader rejects a model that the writer accepted when a line is only a property's name (`RealtimeDictionary.ArmReadsWritten`, `RealtimeDictionary.ArmCanBeUnreadable`).

The comment beside `ClosureResult.reached` says that a path keeps the chain that first reached it. The code stores the chain of the second visit when an include arrives after an implementation edge (line 342), and the model does as the code does.

`dafny verify dfyconfig.toml` checks the whole project.

## Model

| member | source | states |
|---|---|---|
| SceneStream.JoinSlices | libs/scene_stream/receive_state_stream.py:271-275 | joining the first n parts, cut by the rule the receiver checks, gives back the first bytes sent; with all parts, all of them |
| SceneStream.HeldBytesBound | libs/scene_stream/receive_state_stream.py:271-275 | correctly sized chunks with a part missing hold strictly fewer bytes than the message |
| ReassemblyAdmission.AdmittedIffFragment | libs/scene_stream/receive_state_stream.py:263-275 | a datagram is admitted if and only if it is one of the fragments of a description or state of a nonzero run whose bytes are within the message limit |
| ReassemblyAdmission.RefusalReason | libs/scene_stream/receive_state_stream.py:263-275 | the reason of a refusal names the first thing wrong: what is checked later could be repaired by other later fields, and nothing else could make the datagram admissible |
| ReassemblyInvariant.FeedKeepsInv | libs/scene_stream/receive_state_stream.py:226-240 | every datagram, accepted or rejected, keeps: both tables within their limits, every pending, latest, description and report key in a retained run, pending sequences ahead of their lane, each pending entry a nonempty proper subset of parts of the required lengths, and reports in step with latest and descriptions |
| ReassemblyInvariant.CommitReports | libs/scene_stream/receive_state_stream.py:131-157 | the strict zip of observe never trips for a delivered message, and afterwards every report still agrees: last sequence equals latest, the three counts of each scalar sum to states minus unbound states |
| ReassemblyInvariant.FeedReported | libs/scene_stream/receive_state_stream.py:226-240 | feed is the reassembly step after counting the datagram, plus one invalid count or one observation in the run's report, and that observation is always possible |
| ReassemblyInvariant.BufferedBytesBounded | libs/scene_stream/receive_state_stream.py:263-301 | in every reachable state the buffered bytes stay below pending limit times message limit |
| ReassemblyHistory.TouchForgets | libs/scene_stream/receive_state_stream.py:248-261 | a touch evicts at most another run, whose latest and description are gone, and leaves the lanes and description of every other run alone |
| ReassemblyHistory.Stages | libs/scene_stream/receive_state_stream.py:263-301 | an admitted datagram touches its run, then is either discarded as old or opens its key and is absorbed; the log lists the run eviction, the pending eviction and the delivery in that order |
| ReassemblyOrder.StepLatest | libs/scene_stream/receive_state_stream.py:276-281 | after one datagram the lane's latest is what its own events say, and a delivery is ahead of the previous latest |
| ReassemblyOrder.HistoryRises | libs/scene_stream/receive_state_stream.py:263-328 | over any history latest is a function of the eviction and delivery log alone |
| ReassemblyOrder.LaneIncreases | libs/scene_stream/receive_state_stream.py:276-328 | between evictions of a run each of its lanes delivers strictly increasing sequence numbers |
| ReassemblyAccounting.FramesAndGapsAreSpans | libs/scene_stream/receive_state_stream.py:319-324 | over a whole history state_frames plus sequence_gaps is the sum, over all uninterrupted state lanes, of last minus first plus one |
| ReassemblyDelivery.AbsorbGenuine | libs/scene_stream/receive_state_stream.py:287-301 | what a genuine fragment does: a repetition is counted, a new part stored, the last part completes exactly the bytes sent |
| ReassemblyDelivery.HonestStep | libs/scene_stream/receive_state_stream.py:263-328 | one honest datagram never causes a conflict, keeps every pending entry cut from what was sent, and delivers only decodings of the sent bytes |
| ReassemblyDelivery.HonestHistory | libs/scene_stream/receive_state_stream.py:263-328 | under any loss, duplication, reordering, interleaving of runs and evictions, every delivery decodes exactly the bytes sent under its key and no conflict is reported |
| ReassemblyRoundTrip.StillMissing | libs/scene_stream/receive_state_stream.py:282-299 | while some part of an undisturbed message is missing, exactly the parts that arrived are held and nothing was delivered under the key |
| ReassemblyRoundTrip.RoundTrip | libs/scene_stream/receive_state_stream.py:282-301 | at the arrival of the last missing part, and not before, the sent bytes are interpreted, whatever the order, the duplicates and what follows |
| ReassemblyRoundTrip.DeliveredExactlyOnce | libs/scene_stream/receive_state_stream.py:282-328 | a decodable message undisturbed until its last missing part arrives is delivered there, with its own bytes, and nowhere else in the whole history, however the lane goes on, while the receiver keeps the run |
| ReassemblyTraffic.RunStaysKnown | libs/scene_stream/receive_state_stream.py:248-261 | a run new or last seen is never forgotten while there are fewer other runs than the receiver keeps |
| ReassemblyTraffic.QuietTraffic | libs/scene_stream/receive_state_stream.py:248-286 | traffic of fewer other runs than the receiver keeps and fewer other messages than it holds, none later in the lane, leaves a fresh message undisturbed, from any state that does not know its run or saw it last |
| ReassemblyTraffic.ArrivesInTraffic | libs/scene_stream/receive_state_stream.py:248-328 | where that holds up to the last missing part, and the other runs stay that few throughout, that part delivers exactly the sent bytes, once in the whole history, when they decode there; later sequences and messages may follow |
| ReassemblyArrival.FeedDescribes | libs/scene_stream/receive_state_stream.py:302-316 | one datagram keeps a run's description, forgets it, or delivers the one it then has |
| ReassemblyArrival.CollectedIsArrived | libs/scene_stream/receive_state_stream.py:263-299 | among genuine datagrams the parts collected are exactly those whose fragments are among them: none is turned away |
| ReassemblyArrival.DecodableArrives | libs/scene_stream/receive_state_stream.py:248-328 | in such traffic from honest senders whose descriptions of the run that decode are one, and whose states fit it, every description or state within the limit that decodes is delivered exactly once, when the last of its fragments arrives, with its own bytes |
| ReassemblyArrival.SentAloneArrives | libs/scene_stream/receive_state_stream.py:263-328 | from a new receiver: all fragments of a decodable description or state within the limit, in any order with any duplicates, deliver its bytes exactly once, when the last one comes |
| ReassemblyRoundTrip.NoKeyTwice | libs/scene_stream/receive_state_stream.py:276-281 | no key is delivered twice unless the log evicts its run in between |
| RunReports.ObserveKeepsAccount | libs/scene_stream/receive_state_stream.py:131-157 | one more observation keeps the online report equal to the account computed from the whole list of observations: counts, first and last, gaps, same-time and backward steps, arrival interval sum and maximum, time extremes, status counts |
| ReassemblyReports.ReportsAccountForHistory | libs/scene_stream/receive_state_stream.py:226-261 | with reports on from the start, each run's report is the account of exactly what it delivered since its last eviction, and a run without deliveries since then has an empty one |
| ReassemblyCounters.CountersCount | libs/scene_stream/receive_state_stream.py:226-299 | over any history each counter grows by exactly what happened: datagrams, refusals, repetitions, evicted runs, and the incomplete messages lost with a run or alone |
| ReassemblyConsistency.InterpretIff | libs/scene_stream/receive_state_stream.py:302-318 | complete bytes are delivered if and only if they decode and the run's description, if known, is the same or has the state's counts; each refusal has its own reason |
| ReassemblyConsistency.RunIsConsistent | libs/scene_stream/receive_state_stream.py:302-318 | once a run's description is delivered, every later delivery of the run is the same description or a state with its counts and names, until the run is evicted |
| SceneReceiver.Receiver.constructor | libs/scene_stream/receive_state_stream.py:207-224 | an empty receiver satisfies the invariant |
| SceneReceiver.Receiver.Feed | libs/scene_stream/receive_state_stream.py:226-240 | the object's whole new state and the returned message are those of the specified step; the invariant holds again |
| SceneReceiver.Receiver.Reassemble | libs/scene_stream/receive_state_stream.py:263-328 | the checks in order, then touch and reassembly, in place; report objects are only ever dropped |
| SceneReceiver.Receiver.Assemble | libs/scene_stream/receive_state_stream.py:277-301 | after the touch: old datagrams are counted, others open their entry and are absorbed |
| SceneReceiver.Receiver.Absorb | libs/scene_stream/receive_state_stream.py:287-301 | conflict, repetition, storage or completion of one chunk in place |
| SceneReceiver.Receiver.Complete | libs/scene_stream/receive_state_stream.py:302-328 | decoding, the unchanged-description and count checks, gap and frame counters, latest, and removal of superseded entries |
| SceneReceiver.Receiver.Open | libs/scene_stream/receive_state_stream.py:281-286 | a new key goes to the end of the ordered table and the oldest entry goes when there are too many |
| SceneReceiver.Receiver.TouchRun | libs/scene_stream/receive_state_stream.py:248-261 | the run becomes most recent; one run too many evicts the oldest from every table |
| SceneReceiver.Receiver.Forget | libs/scene_stream/receive_state_stream.py:252-261 | a run disappears from reports, descriptions, latest and pending, each dropped entry counted |
| SceneReceiver.Receiver.DeletePending | libs/scene_stream/receive_state_stream.py:258-260 | deleting over a copy of the keys leaves exactly the kept keys in their order, and counts the deleted ones |
| SceneReceiver.Receiver.Report | libs/scene_stream/receive_state_stream.py:233-239 | a delivered message is observed in its run's own report object, created when missing; no two runs share one |
| SceneReceiver.RunReport.Observe | libs/scene_stream/receive_state_stream.py:131-157 | the counters, updated in place, are those of the specified observation |
| SceneReceiver.RunReport.CountStatuses | libs/scene_stream/receive_state_stream.py:155-157 | each status adds one to its own scalar's counter, in place |
| SourceClosure.ForbiddenPrefix | tools/drake_source_boundary/calculate_required_drake_source_closure.py:96-100 | the first prefix in ledger order that starts the path; none exactly when no prefix does |
| SourceVerdicts.VerdictsAre | tools/drake_source_boundary/calculate_required_drake_source_closure.py:345-406 | each verdict from the prefixes, the dispositions, the generated headers and the tree alone: a forbidden prefix before any disposition, and below it expanded, missing, forbidden, declined, undecided or generated |
| SourceVerdicts.EdgesAre | tools/drake_source_boundary/calculate_required_drake_source_closure.py:279-300 | includes leave exactly the vendor files of the tree under no forbidden prefix; implementation edges lead from such a header to the existing units of its stem and to those the ledger declares |
| SourceVerdicts.UnitsAre | tools/drake_source_boundary/calculate_required_drake_source_closure.py:279-300 | the units of a header are the existing files with its stem and the declared ones |
| SourceVerdicts.ReportIsDemanded | tools/drake_source_boundary/calculate_required_drake_source_closure.py:322-416 | a finished closure reports a violation of a path if and only if the path is reachable and ledger, tree and edges demand it, with that kind and detail, and lists as missing exactly the reachable absent vendor files |
| SourceVerdicts.BlocksAre | tools/drake_source_boundary/calculate_required_drake_source_closure.py:258-277 | the walk stops exactly at a reachable vendor file of the tree under no forbidden prefix with an include operand that cannot be read |
| SourceVerdicts.PrefixWins | tools/drake_source_boundary/calculate_required_drake_source_closure.py:345-358 | a reachable path under a forbidden prefix is reported with the first such prefix whatever its disposition, and no edge leaves it |
| SourceClosure.ReachableIsLeast | tools/drake_source_boundary/calculate_required_drake_source_closure.py:328-416 | reachability is contained in every set that holds the roots and is closed under include and implementation edges |
| SourceClosure.ReachableIsClosed | tools/drake_source_boundary/calculate_required_drake_source_closure.py:328-416 | and is itself such a set: with ReachableIsLeast, the least one |
| SourceClosure.VisitKeepsInv | tools/drake_source_boundary/calculate_required_drake_source_closure.py:336-414 | each iteration keeps every stored chain a genuine edge path ending in the recorded edge kind, every edge of an expanded file covered, and the violations and missing files those of the reached paths |
| SourceClosure.ExpectedGrows | tools/drake_source_boundary/calculate_required_drake_source_closure.py:349-400 | a later include edge can only add an unmet dependency, never change a violation already reported |
| ClosureWalk.ReachedIsReachable | tools/drake_source_boundary/calculate_required_drake_source_closure.py:336-416 | with nothing pending the reached paths are exactly the reachable ones |
| ClosureOrders.VisitAtKeepsInv | tools/drake_source_boundary/calculate_required_drake_source_closure.py:336-414 | a visit of any pending entry, not only the last, keeps the walk's invariant or meets an unreadable operand |
| ClosureOrders.AnyOrderIsExact | tools/drake_source_boundary/calculate_required_drake_source_closure.py:336-416 | whatever order entries are popped in, every step is sound and a finished walk is the exact closure |
| ClosureOrders.OrdersAgree | tools/drake_source_boundary/calculate_required_drake_source_closure.py:336-416 | any two finished walks reach the same paths in the same way and report the same violations and missing files; where one order finishes none is stopped by an unreadable operand |
| ClosureOrders.EveryOrderEnds | tools/drake_source_boundary/calculate_required_drake_source_closure.py:336-414 | whatever entry is chosen at each step, without end, after finitely many steps nothing is pending or an operand could not be read |
| ClosureWalk.IncludedIsByInclude | tools/drake_source_boundary/calculate_required_drake_source_closure.py:339-343 | with nothing pending reached_by_include holds exactly for the roots and the include targets of expanded files |
| ClosureWalk.EndIsExact | tools/drake_source_boundary/calculate_required_drake_source_closure.py:336-416 | an empty worklist means exact reach, exact violations, exact missing files |
| ClosureWalk.ComputeClosure | tools/drake_source_boundary/calculate_required_drake_source_closure.py:322-416 | terminates; returns the least closed set with a genuine witness chain for each path, an include as last edge wherever one reaches it, each path in at most one violation of its one kind, unmet dependencies exactly for declined files some include edge reaches; or raises, exactly when a reachable file to expand has an include operand that cannot be read |
| ClosureWalk.VisitEntry | tools/drake_source_boundary/calculate_required_drake_source_closure.py:337-414 | one popped entry: stale entries are skipped, a path first reached by an implementation edge is processed again when an include arrives |
| ClosureWalk.Record | tools/drake_source_boundary/calculate_required_drake_source_closure.py:345-406 | the verdict order: forbidden prefix over any disposition, then forbidden, generated, unclassified, declined, missing; at most one violation is appended |
| ClosureWalk.PushIncludes | tools/drake_source_boundary/calculate_required_drake_source_closure.py:408-410 | pushes exactly the includes no include has reached yet |
| ClosureWalk.PushUnits | tools/drake_source_boundary/calculate_required_drake_source_closure.py:411-414 | pushes exactly the implementation units not reached at all |
| CommentScanner.ScanLine | tools/drake_source_boundary/calculate_required_drake_source_closure.py:210-254 | scanning one or two characters at a time agrees at every column with a position-by-position classifier, and reports whether a block comment stays open |
| CommentScanner.SourceLinesWithoutComments | tools/drake_source_boundary/calculate_required_drake_source_closure.py:197-255 | same number of lines, every line its own length, each character its input or a blank, block comments carried across lines |
| CommentTokens.CarriedBlock | tools/drake_source_boundary/calculate_required_drake_source_closure.py:207-214 | the block state carried to a line is open exactly when the text up to there ends inside a block comment |
| CommentTokens.LinesAreText | tools/drake_source_boundary/calculate_required_drake_source_closure.py:207-255 | scanning line by line is scanning the whole text with one mode in which a newline ends literals and line comments and keeps an open block |
| CommentTokens.ScannedIsShown | tools/drake_source_boundary/calculate_required_drake_source_closure.py:207-255 | however a text is cut into code characters, comments and literals by the grammar, scanning shows each of these with comments blank, newlines kept and literal contents blank or kept |
| CommentTokens.TokensOf | tools/drake_source_boundary/calculate_required_drake_source_closure.py:207-255 | every text of whole lines can be cut so |
| CommentTokens.ScannerMeaning | tools/drake_source_boundary/calculate_required_drake_source_closure.py:197-255 | what the scanner shows of any lines is their tokens so blanked |
| CommentScanner.RescanText | tools/drake_source_boundary/calculate_required_drake_source_closure.py:197-255 | with literals preserved a second scan changes nothing: blanking never makes a comment opener |
| CommentScanner.RescanBlankedText | tools/drake_source_boundary/calculate_required_drake_source_closure.py:225-239 | with literals blanked a second scan changes nothing if and only if in no input line a literal opened in code is followed by code |
| CommentScanner.BlankedIsNotIdempotent | tools/drake_source_boundary/calculate_required_drake_source_closure.py:225-239 | one literal followed by code shows the failure |
| Publication.StepOk | tools/dynamics_qualification/atomic_qualification_directory.cc:10-66 | any single filesystem step of any runner or failure publisher keeps the ownership invariant, never replaces or removes a published directory or result, and touches another actor's partial directory never |
| Publication.ScheduleInv | tools/dynamics_qualification/atomic_qualification_directory.cc:10-66 | the same after every schedule of any number of actors |
| Publication.InterruptionsLeaveDisk | tools/dynamics_qualification/atomic_qualification_directory.cc:46-66 | an actor that is done does nothing more, and a crash or a failed rename leaves the disk |
| Publication.AtMostOne | tools/dynamics_qualification/atomic_qualification_directory.cc:33-66 | in no interleaving, whatever stands on disk at the start, do two runners own the partial directory or both publish, nor two failure publishers hold the temporary directory or both publish |
| Publication.PublishedIsComplete | tools/dynamics_qualification/atomic_qualification_directory.cc:53-66 | a published directory holds exactly the files its owner wrote, a published failure result its whole payload |
| Publication.PublishedStays | tools/dynamics_qualification/atomic_qualification_directory.cc:46-66 | once there, published or found at the start, directory and failure result stay as they are whatever steps follow |
| Publication.NothingElsePublishes | tools/dynamics_qualification/atomic_qualification_directory.cc:53-66 | whatever stands at the final path or the result stood there at the start or was put there by an actor that finished its protocol |
| Publication.StaleNamesBlock | tools/dynamics_qualification/atomic_qualification_directory.cc:26-66 | a name that stands at the start is never taken over: with a final or a partial directory no runner ever publishes, with a result or a temporary one no failure publisher does, and stale partial and temporary directories stay as they are |
| Publication.NextRunnerPublishes | tools/dynamics_qualification/atomic_qualification_directory.cc:26-66 | once an owner that failed cleans up, a runner that has not begun acquires the free path and publishes exactly what it writes |
| Publication.NextPublisherDelivers | tools/dynamics_qualification/qualification_run_accounting.cc:282-304 | once a failed publisher cleans up, one that has not begun publishes its whole payload |
| Publication.AtomicQualificationDirectory.Acquire | tools/dynamics_qualification/atomic_qualification_directory.cc:26-43 | the two checks and the creation, with whatever other actors leave in between; owns the partial directory if and only if the final path was free at its check and the partial path at its check and at the creation |
| Publication.AtomicQualificationDirectory.Publish | tools/dynamics_qualification/atomic_qualification_directory.cc:53-66 | succeeds exactly when owning, unpublished and the final path is free; then the final path is the old partial directory; otherwise nothing changes |
| Publication.AtomicQualificationDirectory.Destroy | tools/dynamics_qualification/atomic_qualification_directory.cc:46-51 | when owned and unpublished the partial directory is gone and nothing else changes; otherwise nothing does |
| Publication.PublishFailureResult | tools/dynamics_qualification/qualification_run_accounting.cc:282-304 | run alone it publishes exactly when success path, result and temporary path are all free, leaves no temporary directory, and otherwise changes nothing |
| TorqueAllocation.FallbackUnreachable | experiments/irw_crossline_r300_r600_r800_v60_v80_v100_full_state_guidance/irw_guidance_control_transaction.cc:62-70 | when the common part fits the smaller limit the interval of admissible differentials contains zero, so the empty-interval fallback is never taken |
| TorqueAllocation.BoundsAreAdmissible | experiments/irw_crossline_r300_r600_r800_v60_v80_v100_full_state_guidance/irw_guidance_control_transaction.cc:63-66 | the computed bounds are exactly the differentials that keep both wheels within their limits |
| TorqueAllocation.AllocateAxleIsAllocation | experiments/irw_crossline_r300_r600_r800_v60_v80_v100_full_state_guidance/irw_guidance_control_transaction.cc:51-74 | finite or infinite limits: both wheels end within their limits; a common part that fits is kept exactly with the admissible differential nearest the request, otherwise both wheels get the smaller limit with the common part's sign |
| TorqueAllocation.SanitizedAdmits | experiments/irw_crossline_r300_r600_r800_v60_v80_v100_full_state_guidance/irw_guidance_control_transaction.cc:31-40 | a limit that is not finite admits every torque, a finite one those within it, and a negative one only zero |
| TorqueAllocation.SmallerLimitIs | experiments/irw_crossline_r300_r600_r800_v60_v80_v100_full_state_guidance/irw_guidance_control_transaction.cc:56-61 | the common torques both wheels admit are those up to the smaller limit |
| TorqueAllocation.AllocationIsUnique | experiments/irw_crossline_r300_r600_r800_v60_v80_v100_full_state_guidance/irw_guidance_control_transaction.cc:51-74 | these requirements leave exactly one outcome |
| TorqueAllocation.AllocationIsIdempotent | experiments/irw_crossline_r300_r600_r800_v60_v80_v100_full_state_guidance/irw_guidance_control_transaction.cc:51-74 | an allocated pair is its own allocation |
| TorqueAllocation.AllocatedTwice | experiments/irw_crossline_r300_r600_r800_v60_v80_v100_full_state_guidance/irw_guidance_control_transaction.cc:42-77 | allocating the vehicle's torques a second time changes nothing |
| TorqueAllocation.AllocatedIsUnique | experiments/irw_crossline_r300_r600_r800_v60_v80_v100_full_state_guidance/irw_guidance_control_transaction.cc:42-77 | only one vector gives every axle its allocation |
| TorqueAllocation.SaturationIsLargestIff | experiments/irw_crossline_r300_r600_r800_v60_v80_v100_full_state_guidance/irw_guidance_control_transaction.cc:58-61 | when the common part does not fit, the outcome is the largest admissible common part within the request if and only if the two limits are equal |
| TorqueAllocation.AllocatedIsAllocation | experiments/irw_crossline_r300_r600_r800_v60_v80_v100_full_state_guidance/irw_guidance_control_transaction.cc:42-77 | every axle of the vehicle has its allocation under its own sanitized limits |
| TorqueAllocation.ApplyLongitudinalCommonModePriority | experiments/irw_crossline_r300_r600_r800_v60_v80_v100_full_state_guidance/irw_guidance_control_transaction.cc:42-77 | the loop over axles on a copy of the requests computes that allocation |
| TorqueAllocation.PrioritizeAxle | experiments/irw_crossline_r300_r600_r800_v60_v80_v100_full_state_guidance/irw_guidance_control_transaction.cc:51-74 | the loop body's branches and in-place adjustments give the axle's outcome |
| TorqueAllocation.ProbeKeepsSums | experiments/irw_crossline_r300_r600_r800_v60_v80_v100_full_state_guidance/irw_guidance_control_transaction.cc:13-29 | the probe keeps every axle's sum and removes its differential unless the mean is negligible |
| TorqueAllocation.MakeCommonModeProbeRequest | experiments/irw_crossline_r300_r600_r800_v60_v80_v100_full_state_guidance/irw_guidance_control_transaction.cc:13-29 | the probe loop on a copy computes that probe |
| ControlTransaction.TransactMeaning | experiments/irw_crossline_r300_r600_r800_v60_v80_v100_full_state_guidance/irw_guidance_control_transaction.cc:81-117 | a transaction gives a memory if and only if the memory comes from an evaluated point, a controller step, a probe and a final conditioning that both start from the same old memory, with every axle of the final request the allocation of the controller's request under the probe's limits; the probe's own torques and memory are no part of it |
| ControlSession.HistoryIsFold | experiments/irw_crossline_r300_r600_r800_v60_v80_v100_full_state_guidance/irw_guidance_control_event_session.cc:90-195 | in every history of calls, failures and retries, controller state, conditioner memory and held torques are the fold of the transaction over exactly the committed events; event k commits once, at time k periods, the first is the initialization and only the last may be terminal |
| ControlSession.FailureChangesNothing | experiments/irw_crossline_r300_r600_r800_v60_v80_v100_full_state_guidance/irw_guidance_control_event_session.cc:138-147 | a failed event changes no memory, torque, time or ordinal and leaves its own boundary due; a refused call changes nothing |
| ControlSession.CommitsIff | experiments/irw_crossline_r300_r600_r800_v60_v80_v100_full_state_guidance/irw_guidance_control_event_session.cc:90-156 | an event commits if and only if phase and time admit it, the observation arrives, the transaction succeeds and the torques are accepted |
| ControlSession.RetryCommits | experiments/irw_crossline_r300_r600_r800_v60_v80_v100_full_state_guidance/irw_guidance_control_event_session.cc:138-156 | a failed event commits when it is tried again and nothing fails |
| ControlSession.SessionCompletes | experiments/irw_crossline_r300_r600_r800_v60_v80_v100_full_state_guidance/irw_guidance_control_event_session.cc:90-195 | for any observations whose transactions succeed in turn there is a session that commits exactly them, each after its confirmation and advance, and ends with their fold |
| ControlSession.DueEventBlocks | experiments/irw_crossline_r300_r600_r800_v60_v80_v100_full_state_guidance/irw_guidance_control_event_session.cc:182-195 | while the due event has not committed no call advances or confirms, however many attempts fail |
| ControlSession.TerminalIsFinal | experiments/irw_crossline_r300_r600_r800_v60_v80_v100_full_state_guidance/irw_guidance_control_event_session.cc:129-131 | after the terminal event nothing commits, confirms or advances |
| ControlSession.GateIsExact | experiments/irw_crossline_r300_r600_r800_v60_v80_v100_full_state_guidance/irw_guidance_control_event_session.cc:182-195 | in every history of a session the advance gate is open if and only if some call confirmed a synchronization and no event was committed or failed since |
| ControlSession.IrwGuidanceControlEventSession.constructor | experiments/irw_crossline_r300_r600_r800_v60_v80_v100_full_state_guidance/irw_guidance_control_event_session.cc:26-46 | a session starts with nothing committed, its given memories and ordinal zero |
| ControlSession.IrwGuidanceControlEventSession.ApplyInitializationUpdate | experiments/irw_crossline_r300_r600_r800_v60_v80_v100_full_state_guidance/irw_guidance_control_event_session.cc:90-112 | the object's update is the specified initialization step, held torques included |
| ControlSession.IrwGuidanceControlEventSession.ApplyScheduledUpdate | experiments/irw_crossline_r300_r600_r800_v60_v80_v100_full_state_guidance/irw_guidance_control_event_session.cc:114-156 | the object's update is the specified periodic or terminal step: phase first, memories only after the torques are accepted |
| ControlSession.IrwGuidanceControlEventSession.ConfirmBackendSynchronized | experiments/irw_crossline_r300_r600_r800_v60_v80_v100_full_state_guidance/irw_guidance_control_event_session.cc:182-188 | confirmation opens the gate exactly after a committed non-terminal event |
| ExperimentRuns.FillSampleTimes | experiments/irw_crossline_r300_r600_r800_v60_v80_v100_full_state_guidance/irw_guidance_experiment_run.cc:1256-1266 | the dense output times start at the accepted time, end at the due event time, strictly increase and lie on the nanosecond grid |
| ExperimentRuns.ObserveInterval | experiments/irw_crossline_r300_r600_r800_v60_v80_v100_full_state_guidance/irw_guidance_experiment_run.cc:1281-1300 | twenty observations of one interval continue the sample indices without gap or repetition, or one could not be written |
| ExperimentRuns.RunIrwGuidanceExperiment | experiments/irw_crossline_r300_r600_r800_v60_v80_v100_full_state_guidance/irw_guidance_experiment_run.cc:1188-1362 | a successful run visits samples 0 to 20n once each in order, makes 20 per interval plus one observations, synchronizes events minus two times, stops at the first event past the terminal station or at the cap, and leaves the fold over its observations; a stopped run names something outside the loop that failed, or the cap: never the gate, a refused event or a refused confirmation |
| ExperimentRuns.RunInterval | experiments/irw_crossline_r300_r600_r800_v60_v80_v100_full_state_guidance/irw_guidance_experiment_run.cc:1255-1345 | one interval from an open gate: twenty samples, the terminal test on the axle stations, and the scheduled event of this ordinal committed at its own time, or a failure with its cause |
| SimpackRun.RunSimpackRealtime | experiments/irw_crossline_r300_r600_r800_v60_v80_v100_full_state_guidance/irw_single_curve_guidance_simpack_realtime_run.cc:655-727 | a successful run visits samples 0 to 10n once each, makes 10 per period plus one observations, ends at the first control period with every axle past the station and leaves the fold over its observations; the inputs set before sample s are the torques of event (s-1)/10; a stopped run names what failed, and gives up at the cap only when no period up to it got there |
| SimpackRun.LoopsAgree | experiments/irw_crossline_r300_r600_r800_v60_v80_v100_full_state_guidance/irw_single_curve_guidance_simpack_realtime_run.cc:698-722 | both run loops leave the same controller state, conditioner memory and torques when their events acted on the same observations |
| WorkLedger.CheckedAdd | tools/dynamics_qualification/qualification_run_accounting.cc:35-40 | adds, or throws exactly when the sum does not fit 64 bits |
| WorkLedger.CounterDelta | tools/dynamics_qualification/qualification_run_accounting.cc:42-48 | subtracts, or throws exactly when the counter decreased |
| WorkLedger.FirstBad | tools/dynamics_qualification/qualification_run_accounting.cc:161-164 | no counter is refused exactly when every one is monotone and its new total fits |
| WorkLedger.FirstBadIs | tools/dynamics_qualification/qualification_run_accounting.cc:146-175 | the error is that of the first counter in order, and says whether it decreased or overflows |
| WorkLedger.RefusalIs | tools/dynamics_qualification/qualification_run_accounting.cc:141-175 | an update goes through if and only if an epoch is open or begun, the workers are nonnegative and the same, no counter decreases, all sums fit and the epoch can be counted; the checks before the counters have their own errors |
| WorkLedger.QualificationIntegrationWorkLedger.Account | tools/dynamics_qualification/qualification_run_accounting.cc:146-175 | all or nothing: an error leaves every field, success sets the totals, baseline, worker identity and epoch count |
| WorkLedger.QualificationIntegrationWorkLedger.AddCounters | tools/dynamics_qualification/qualification_run_accounting.cc:158-164 | the eight sums are formed in a local copy, stopping at the first counter that decreased or overflows |
| WorkLedger.QualificationIntegrationWorkLedger.BeginEpoch | tools/dynamics_qualification/qualification_run_accounting.cc:136-139 | an update measured from zero, in a new epoch |
| WorkLedger.QualificationIntegrationWorkLedger.Capture | tools/dynamics_qualification/qualification_run_accounting.cc:141-144 | an update measured from the last one, in the same epoch |
| WorkLedger.QualificationIntegrationWorkLedger.TotalRightHandSides | tools/dynamics_qualification/qualification_run_accounting.cc:202-207 | the sum of the two right-hand-side totals; its overflow exception is never thrown on a ledger that keeps them summable, as every ledger does |
| IntegrationRun.ConstructExact | tools/dynamics_qualification/qualification_integration_run.cc:17-33 | construction succeeds exactly with a nonnegative worker count and representable initial work, and then everything done is in the total |
| IntegrationRun.CaptureSettles | tools/dynamics_qualification/qualification_integration_run.cc:39-41 | on an exact account a capture succeeds exactly when the lifetime work is representable, and then the total is the whole of it |
| IntegrationRun.RepeatedCaptureAddsNothing | tools/dynamics_qualification/qualification_run_accounting.cc:141-175 | a second capture succeeds and changes nothing |
| IntegrationRun.StepKeeps | tools/dynamics_qualification/qualification_integration_run.cc:43-71 | every advance or synchronization, returning or throwing, that does not lose an epoch keeps total plus unaccounted work equal to the true lifetime work; one that returns leaves nothing unaccounted |
| IntegrationRun.SynchronizeReturnsIff | tools/dynamics_qualification/qualification_integration_run.cc:59-71 | on an exact account a synchronization returns if and only if the reinitialization succeeds, the lifetime work is representable without and with the restart's, and the epoch can be counted |
| IntegrationRun.StepWork | tools/dynamics_qualification/qualification_integration_run.cc:43-71 | the work of a call is done as far as the call came, whether it returns or throws |
| IntegrationRun.HistoryExact | tools/dynamics_qualification/qualification_integration_run.cc:43-71 | over every history of calls, failing or not and with any epochs refused, what the total and the open epoch lack of the true lifetime work is exactly the work of the epochs lost to refusals; no total ever exceeds the true work |
| IntegrationRun.EpochsCounted | tools/dynamics_qualification/qualification_integration_run.cc:43-79 | over every history the epoch count is the number of epochs begun, and a mark of incomplete statistics stays |
| IntegrationRun.ReturnedIsSettled | tools/dynamics_qualification/qualification_integration_run.cc:43-71 | after any call that returned the total is the whole lifetime work if and only if every epoch lost so far was empty |
| IntegrationRun.LostEpochIsExactIff | tools/dynamics_qualification/qualification_integration_run.cc:43-71 | over every history the account is exact if and only if every epoch lost to a refusal had done no work |
| IntegrationRun.StepMissing | tools/dynamics_qualification/qualification_integration_run.cc:43-79 | one call from any state, returning or throwing, misses exactly the work of the epoch it loses |
| IntegrationRun.EpochRefusedIff | tools/dynamics_qualification/qualification_run_accounting.cc:146-175 | after a capture a new epoch is refused if and only if the shown total plus the new counters is not representable, or the epoch count is full |
| IntegrationRun.LosesEpochIff | tools/dynamics_qualification/qualification_integration_run.cc:59-71 | on an exact account a successful reinitialization loses its epoch if and only if the lifetime work is representable but not together with the restart's, or the epoch count is full |
| IntegrationRun.LossUnmarkedIff | tools/dynamics_qualification/qualification_integration_run.cc:59-79 | where an epoch is lost, the statistics still read as complete if and only if the new epoch's counters reach those of the lost one and fit in its place; the total then holds them instead of the lost epoch's |
| IntegrationRun.LostEpochCanLookComplete | tools/dynamics_qualification/qualification_integration_run.cc:43-79 | construction, one advance and two synchronizations, each restart costing its one right-hand side: the second one's loss goes unmarked |
| IntegrationRun.SumsAlwaysFit | tools/dynamics_qualification/qualification_run_accounting.cc:165-166 | no update can make the right-hand-side sum of ToJson overflow |
| IntegrationRun.AccumulateIs | experiments/irw_crossline_r300_r600_r800_v60_v80_v100_full_state_guidance/irw_guidance_experiment_run.cc:572-602 | plain accumulation raises exactly when another worker count was adopted before, and else each sum wraps at 64 bits |
| IntegrationRun.PlainAccumulationAgrees | experiments/irw_crossline_r300_r600_r800_v60_v80_v100_full_state_guidance/irw_guidance_experiment_run.cc:572-602 | where both go through, adding each interval's statistics once gives the ledger's counters and worker count |
| IntegrationRunObjects.QualificationIntegrationRun.Construct | tools/dynamics_qualification/qualification_integration_run.cc:10-33 | succeeds exactly when the backend was constructed, its first epoch is accepted and its method is the configured one; otherwise the failure record of the resulting ledger is published where it can be, also when there is no backend |
| IntegrationRunObjects.QualificationIntegrationRun.Advance | tools/dynamics_qualification/qualification_integration_run.cc:43-57 | advance, capture, and on a throw one more capture or an unavailability note and a published record |
| IntegrationRunObjects.QualificationIntegrationRun.Synchronize | tools/dynamics_qualification/qualification_integration_run.cc:59-71 | capture, reinitialize, begin an epoch, in that order, with the same failure record |
| IntegrationRunObjects.QualificationIntegrationRun.RecordFailure | tools/dynamics_qualification/qualification_integration_run.cc:73-98 | one more capture, or a note that there is none; then a record of the stage and of the ledger's work is published, unless success path, result or temporary path is taken, and then nothing on disk changes |
| IntegrationRunObjects.RecordsTellTheTruth | tools/dynamics_qualification/qualification_integration_run.cc:73-98 | on an exact account a failure record calls its work complete exactly when no note was made and the lifetime work is representable, and then holds the whole of it |
| IntegrationRunObjects.RunningStatistics.AccumulateStatistics | experiments/irw_crossline_r300_r600_r800_v60_v80_v100_full_state_guidance/irw_guidance_experiment_run.cc:572-602 | sums wrap at 64 bits; a first worker count is adopted, a different one rejected after the sums were added |
| ModelEditor.DissectIsShaped | experiments/irw_passive_multispeed_simpack_slv_comparison/run_irw_passive_simpack_direct_slv_and_orvd_scenario.py:106-117 | cutting a line gives a head ending at its first equals sign, a field before the comment, and comment with newline |
| ModelEditor.ShapedDissects | experiments/irw_passive_multispeed_simpack_slv_comparison/run_irw_passive_simpack_direct_slv_and_orvd_scenario.py:106-117 | only those pieces have that shape, so an edited line is cut again at the same places |
| ModelEditor.NewFieldHolds | experiments/irw_passive_multispeed_simpack_slv_comparison/run_irw_passive_simpack_direct_slv_and_orvd_scenario.py:112-118 | the edited field reads as the new value, between the same blanks |
| ModelEditor.OneProperty | experiments/irw_passive_multispeed_simpack_slv_comparison/run_irw_passive_simpack_direct_slv_and_orvd_scenario.py:83-89 | no line belongs to two properties |
| ModelEditor.ReplaceFrames | experiments/irw_passive_multispeed_simpack_slv_comparison/run_irw_passive_simpack_direct_slv_and_orvd_scenario.py:92-119 | an edit changes exactly one line, the property's only one, and of it only the value field; blanks, comment and newline stay |
| ModelEditor.ReplaceKeepsMatches | experiments/irw_passive_multispeed_simpack_slv_comparison/run_irw_passive_simpack_direct_slv_and_orvd_scenario.py:83-99 | an edit leaves the lines of every property where they were |
| ModelEditor.PutPut | experiments/irw_passive_multispeed_simpack_slv_comparison/run_irw_passive_simpack_direct_slv_and_orvd_scenario.py:92-119 | after one edit of a property another leaves what it alone would have left |
| ModelEditor.Idempotent | experiments/irw_passive_multispeed_simpack_slv_comparison/run_irw_passive_simpack_direct_slv_and_orvd_scenario.py:92-119 | the same edit twice is the edit once |
| ModelEditor.EditsCommute | experiments/irw_passive_multispeed_simpack_slv_comparison/run_irw_passive_simpack_direct_slv_and_orvd_scenario.py:92-119 | edits of distinct properties commute, and raise in one order exactly when they raise in the other |
| ModelEditor.EditsWhereReadable | experiments/irw_passive_multispeed_simpack_slv_comparison/run_irw_passive_simpack_direct_slv_and_orvd_scenario.py:99-109 | an edit succeeds exactly when the property has one line with an equals sign |
| ModelEditor.PutGet | experiments/irw_passive_multispeed_simpack_slv_comparison/run_irw_passive_simpack_direct_slv_and_orvd_scenario.py:92-119 | after an edit its property reads as the new value and every other as before |
| ModelEditor.GetPut | experiments/irw_passive_multispeed_simpack_slv_comparison/run_irw_passive_simpack_direct_slv_and_orvd_scenario.py:112-113 | writing the value already there returns the text itself |
| ModelEditor.CollectMatches | experiments/irw_passive_multispeed_simpack_slv_comparison/run_irw_passive_simpack_direct_slv_and_orvd_scenario.py:94-98 | the matching line numbers, in order |
| ModelEditor.RewriteValue | experiments/irw_passive_multispeed_simpack_slv_comparison/run_irw_passive_simpack_direct_slv_and_orvd_scenario.py:104-118 | the line cut and put together again with its new value, or no equals sign |
| ModelEditor.ReplaceAssignment | experiments/irw_passive_multispeed_simpack_slv_comparison/run_irw_passive_simpack_direct_slv_and_orvd_scenario.py:92-119 | the in-place edit of the line list is the specified edit, its errors included |
| Readings.SingleMeaning | experiments/irw_passive_multispeed_simpack_slv_comparison/run_irw_passive_simpack_direct_slv_and_orvd_scenario.py:141-146 | a reader returns a value exactly when one line holds it and no other line says anything about the property |
| ScopedAssignments.ScopedMeaning | experiments/irw_passive_multispeed_simpack_slv_comparison/run_irw_passive_simpack_direct_slv_and_orvd_scenario.py:122-146 | the scoped reader returns a value exactly when one line has it for the object, every other line is silent about the object and none is malformed |
| ScopedAssignments.ScopedAssignmentValue | experiments/irw_passive_multispeed_simpack_slv_comparison/run_irw_passive_simpack_direct_slv_and_orvd_scenario.py:122-146 | the accumulating loop is that reader, including where it raises early |
| ScopedLines.AssignmentLineIs | experiments/irw_passive_multispeed_simpack_slv_comparison/run_irw_passive_simpack_direct_slv_and_orvd_scenario.py:83-89 | a line is a property's if and only if it is blanks, the name, and then nothing, a blank or a parenthesis |
| ScopedLines.WordsAre | experiments/irw_passive_multispeed_simpack_slv_comparison/run_irw_passive_simpack_direct_slv_and_orvd_scenario.py:131 | the words of a text are its nonempty slices without blanks that blanks or the ends bound |
| ScopedLines.ScopedLineIs | experiments/irw_passive_multispeed_simpack_slv_comparison/run_irw_passive_simpack_direct_slv_and_orvd_scenario.py:122-141 | a line counts for the object if and only if it is the property's and has the object among the words of its first parentheses; it then gives the stripped field after the first following equals sign, up to a comment, and is malformed exactly without that sign |
| ScopedLines.ScopedValueIs | experiments/irw_passive_multispeed_simpack_slv_comparison/run_irw_passive_simpack_direct_slv_and_orvd_scenario.py:122-146 | a text has a scoped value if and only if one line alone names the object for the property, and then it is what that line gives |
| ScopedAssignments.MatchWithoutNewline | experiments/irw_passive_multispeed_simpack_slv_comparison/run_irw_passive_simpack_direct_slv_and_orvd_scenario.py:83-89 | whose line it is does not depend on whether the newline was kept |
| ScopedAssignments.EditLeavesScoped | experiments/irw_passive_multispeed_simpack_slv_comparison/run_irw_passive_simpack_direct_slv_and_orvd_scenario.py:92-146 | an edit of one property leaves what every other property says of every object |
| ResultSettings.SettingFacts | experiments/irw_passive_multispeed_simpack_slv_comparison/run_irw_passive_simpack_direct_slv_and_orvd_scenario.py:209-215 | the inserted line is one terminated line of the precision property alone and reads as 1 |
| ResultSettings.InsertedSplits | experiments/irw_passive_multispeed_simpack_slv_comparison/run_irw_passive_simpack_direct_slv_and_orvd_scenario.py:202-217 | inserted behind a terminated anchor the setting is a line of its own; behind an unterminated one it continues that line |
| ResultSettings.SettingLeavesOthers | experiments/irw_passive_multispeed_simpack_slv_comparison/run_irw_passive_simpack_direct_slv_and_orvd_scenario.py:192-217 | every other property reads as before, scoped or not; only where the setting does not take hold are the anchor's own property and the name a bare anchor turns into left out |
| ResultSettings.AnchorKeepsValueIff | experiments/irw_passive_multispeed_simpack_slv_comparison/run_irw_passive_simpack_direct_slv_and_orvd_scenario.py:202-217 | where it does not take hold, the anchor's property keeps its value if and only if a comment follows the value on its line or the line is the bare name |
| ResultSettings.AnchorAlone | experiments/irw_passive_multispeed_simpack_slv_comparison/run_irw_passive_simpack_direct_slv_and_orvd_scenario.py:202-217 | a text where it does not take hold: the setting does not read back and a second call changes the text again |
| ResultSettings.EditKeepsTakesHold | experiments/irw_passive_multispeed_simpack_slv_comparison/run_irw_passive_simpack_direct_slv_and_orvd_scenario.py:92-119 | an edit neither makes nor breaks the condition |
| ResultSettings.SettingReadsBack | experiments/irw_passive_multispeed_simpack_slv_comparison/run_irw_passive_simpack_direct_slv_and_orvd_scenario.py:192-217 | the setting reads back as 1 if and only if it was there before or the anchor's line ends in a newline |
| ResultSettings.SettingTwice | experiments/irw_passive_multispeed_simpack_slv_comparison/run_irw_passive_simpack_direct_slv_and_orvd_scenario.py:192-217 | a second call changes nothing if and only if the same condition holds |
| ResultSettings.CountAssignments | experiments/irw_passive_multispeed_simpack_slv_comparison/run_irw_passive_simpack_direct_slv_and_orvd_scenario.py:194 | counting over lines without newlines counts the property's lines |
| ResultSettings.SetBinary64Results | experiments/irw_passive_multispeed_simpack_slv_comparison/run_irw_passive_simpack_direct_slv_and_orvd_scenario.py:192-217 | count, edit or insert, and every error, as specified |
| SpckPreparation.VerifyTrackContract | experiments/irw_passive_multispeed_simpack_slv_comparison/run_irw_passive_simpack_direct_slv_and_orvd_scenario.py:149-189 | checks every one of the seventeen expectations |
| SpckPreparation.ContractIs | experiments/irw_passive_multispeed_simpack_slv_comparison/run_irw_passive_simpack_direct_slv_and_orvd_scenario.py:149-189 | the contract property by property, with the value each must have for the track or the parameter |
| SpckPreparation.EditsAreDistinct | experiments/irw_passive_multispeed_simpack_slv_comparison/run_irw_passive_simpack_direct_slv_and_orvd_scenario.py:232-242 | the six edited properties have six different names |
| SpckPreparation.PreparedKeepsContract | experiments/irw_passive_multispeed_simpack_slv_comparison/run_irw_passive_simpack_direct_slv_and_orvd_scenario.py:220-243 | a model that passes the track contract passes it still after all of prepare_spck |
| SpckPreparation.PreparedReads | experiments/irw_passive_multispeed_simpack_slv_comparison/run_irw_passive_simpack_direct_slv_and_orvd_scenario.py:220-243 | the prepared model reads back each of the six written values, and every other property reads as before, with the two names left out where the setting does not take hold in the source |
| SpckPreparation.PreparedValues | experiments/irw_passive_multispeed_simpack_slv_comparison/run_irw_passive_simpack_direct_slv_and_orvd_scenario.py:220-243 | track, speed, starting velocity switch, output points, duration and frequency read back under their own names |
| SpckPreparation.PreparedPrecision | experiments/irw_passive_multispeed_simpack_slv_comparison/run_irw_passive_simpack_direct_slv_and_orvd_scenario.py:220-243 | the precision reads back as 1 if and only if the setting takes hold in the source |
| SpckPreparation.PreparedAnchor | experiments/irw_passive_multispeed_simpack_slv_comparison/run_irw_passive_simpack_direct_slv_and_orvd_scenario.py:220-243 | where it does not, the anchor's property keeps its value if and only if its line in the source is closed |
| SpckPreparation.PreparedKeepsDefinition | experiments/irw_passive_multispeed_simpack_slv_comparison/run_irw_passive_simpack_direct_slv_and_orvd_scenario.py:222-229 | the prepared model still defines its track exactly once |
| TrackDefinitions.CountDefinitions | experiments/irw_passive_multispeed_simpack_slv_comparison/run_irw_passive_simpack_direct_slv_and_orvd_scenario.py:222-226 | counts the lines that define the track |
| TrackDefinitions.DefinesTrackIs | experiments/irw_passive_multispeed_simpack_slv_comparison/run_irw_passive_simpack_direct_slv_and_orvd_scenario.py:220-229 | a line defines the track if and only if it is the type property, an opening parenthesis, anything that ends with the track, a closing parenthesis and an equals sign, with blanks between |
| TrackDefinitions.DefinitionsByOwn | experiments/irw_passive_multispeed_simpack_slv_comparison/run_irw_passive_simpack_direct_slv_and_orvd_scenario.py:222-226 | the count depends on the lines of the type property alone |
| SpckPreparation.PreparedTwice | experiments/irw_passive_multispeed_simpack_slv_comparison/run_irw_passive_simpack_direct_slv_and_orvd_scenario.py:220-243 | preparing a prepared model, all its checks included, succeeds and changes nothing if and only if the precision setting takes hold in the source |
| SpckPreparation.PrepareSpck | experiments/irw_passive_multispeed_simpack_slv_comparison/run_irw_passive_simpack_direct_slv_and_orvd_scenario.py:220-243 | definition count, contract, six edits and the setting in order, None where any raises |
| RealtimeModel.AssignmentProperty | experiments/irw_crossline_r300_r600_r800_v60_v80_v100_full_state_guidance/run_irw_single_curve_guidance_simpack_realtime_comparison_arm.py:45-53 | the first dictionary name, in order, that the line carries |
| RealtimeModel.TransformAndCount | experiments/irw_crossline_r300_r600_r800_v60_v80_v100_full_state_guidance/run_irw_single_curve_guidance_simpack_realtime_comparison_arm.py:80-116 | one pass rewrites the lines and counts each name and each key, stopping at a malformed line |
| RealtimeModel.PrepareModelText | experiments/irw_crossline_r300_r600_r800_v60_v80_v100_full_state_guidance/run_irw_single_curve_guidance_simpack_realtime_comparison_arm.py:80-135 | the text is written exactly when the track is mentioned, no rewritten line is malformed and every name and key was found once |
| RealtimeLines.WriterLineIs | experiments/irw_crossline_r300_r600_r800_v60_v80_v100_full_state_guidance/run_irw_single_curve_guidance_simpack_realtime_comparison_arm.py:45-53 | a line carries a name if and only if it is blanks, the name and then a space, a tab or a parenthesis |
| RealtimeLines.RewrittenIs | experiments/irw_crossline_r300_r600_r800_v60_v80_v100_full_state_guidance/run_irw_single_curve_guidance_simpack_realtime_comparison_arm.py:56-61 | a line without an equals sign is malformed; else it is kept up to the first one and followed by the value and the comment |
| RealtimeLines.WrittenIff | experiments/irw_crossline_r300_r600_r800_v60_v80_v100_full_state_guidance/run_irw_single_curve_guidance_simpack_realtime_comparison_arm.py:80-135 | a model is written if and only if it mentions the track, no line to rewrite lacks its equals sign, and every name and every key stands in exactly one line |
| RealtimeLines.RewriteKeepsKey | experiments/irw_crossline_r300_r600_r800_v60_v80_v100_full_state_guidance/run_irw_single_curve_guidance_simpack_realtime_comparison_arm.py:38-78 | rewriting keeps a line's key, and gives none to a line without |
| RealtimeLines.KeyedReadsWritten | experiments/irw_crossline_r300_r600_r800_v60_v80_v100_full_state_guidance/run_irw_single_curve_guidance_simpack_realtime_comparison_arm.py:80-135 | after a successful write each historical key stands in exactly one line, and that line gives its value |
| RealtimeLines.ReaderLineIs | experiments/irw_crossline_r300_r600_r800_v60_v80_v100_full_state_guidance/irw_single_curve_guidance_simpack_realtime_run.cc:120-181 | what the reader makes of a line, from its shape: other, malformed without an equals sign, or the stripped field after the first one up to a comment |
| RealtimeModel.JoinWithNewlines | experiments/irw_crossline_r300_r600_r800_v60_v80_v100_full_state_guidance/run_irw_single_curve_guidance_simpack_realtime_comparison_arm.py:135 | every line ends in a newline |
| RealtimeModel.ReadAssignment | experiments/irw_crossline_r300_r600_r800_v60_v80_v100_full_state_guidance/irw_single_curve_guidance_simpack_realtime_run.cc:161-196 | the loop with its last value and count returns the only value, and rejects otherwise |
| WriterReader.EditForIs | experiments/irw_crossline_r300_r600_r800_v60_v80_v100_full_state_guidance/run_irw_single_curve_guidance_simpack_realtime_comparison_arm.py:45-53 | a line's edit is the one whose name it carries, wherever that stands in the dictionary |
| WriterReader.OrderIrrelevant | experiments/irw_crossline_r300_r600_r800_v60_v80_v100_full_state_guidance/run_irw_single_curve_guidance_simpack_realtime_comparison_arm.py:80-135 | two dictionaries with the same entries write the same text or both raise |
| WriterReader.RewrittenLine | experiments/irw_crossline_r300_r600_r800_v60_v80_v100_full_state_guidance/run_irw_single_curve_guidance_simpack_realtime_comparison_arm.py:56-62 | the reader finds the written value on a rewritten line for the name it carries, and nothing for any other name |
| WriterReader.UntouchedReads | experiments/irw_crossline_r300_r600_r800_v60_v80_v100_full_state_guidance/irw_single_curve_guidance_simpack_realtime_run.cc:170-181 | a line the writer leaves alone says nothing to the reader unless it is the bare name, which the reader rejects |
| WriterReader.OutputLines | experiments/irw_crossline_r300_r600_r800_v60_v80_v100_full_state_guidance/run_irw_single_curve_guidance_simpack_realtime_comparison_arm.py:92-135 | the reader goes through exactly the transformed lines |
| WriterReader.ReadsWritten | experiments/irw_crossline_r300_r600_r800_v60_v80_v100_full_state_guidance/run_irw_single_curve_guidance_simpack_realtime_comparison_arm.py:80-135 | after a successful write the reader returns the written value of every rewritten property if and only if no line was that bare name |
| RealtimeDictionary.BareNameIsUnreadable | experiments/irw_crossline_r300_r600_r800_v60_v80_v100_full_state_guidance/run_irw_single_curve_guidance_simpack_realtime_comparison_arm.py:80-135 | for every dictionary and each of its names there is a model the writer accepts and the reader rejects |
| RealtimeDictionary.AssignmentsAreDictionary | experiments/irw_crossline_r300_r600_r800_v60_v80_v100_full_state_guidance/run_irw_single_curve_guidance_simpack_realtime_comparison_arm.py:15-24 | the ten assignments the arm writes have distinct proper names and values a line can hold |
| RealtimeDictionary.HistoricalApart | experiments/irw_crossline_r300_r600_r800_v60_v80_v100_full_state_guidance/run_irw_single_curve_guidance_simpack_realtime_comparison_arm.py:26-36 | none of the historical properties is among them, in either mode |
| RealtimeDictionary.ArmReadsWritten | experiments/irw_crossline_r300_r600_r800_v60_v80_v100_full_state_guidance/run_irw_single_curve_guidance_simpack_realtime_comparison_arm.py:80-135 | in either mode each of the ten written values is read back if and only if no line was that bare name |
| RealtimeDictionary.ArmCanBeUnreadable | experiments/irw_crossline_r300_r600_r800_v60_v80_v100_full_state_guidance/irw_single_curve_guidance_simpack_realtime_run.cc:170-181 | for each of the ten names a model the writer accepts and the reader rejects |
| HistoricalLines.KeyStartsLine | experiments/irw_crossline_r300_r600_r800_v60_v80_v100_full_state_guidance/run_irw_single_curve_guidance_simpack_realtime_comparison_arm.py:38-42 | a historical line is a line of the property its key names |
| HistoricalLines.RenderedReads | experiments/irw_crossline_r300_r600_r800_v60_v80_v100_full_state_guidance/run_irw_single_curve_guidance_simpack_realtime_comparison_arm.py:38-78 | a key written with any blanks between its pieces is read back as its name, the number of its index and its object |
| HistoricalLines.KeyIsRendered | experiments/irw_crossline_r300_r600_r800_v60_v80_v100_full_state_guidance/run_irw_single_curve_guidance_simpack_realtime_comparison_arm.py:38-78 | and a line is read as a key only if it is that key written with some blanks |
| HistoricalLines.NumberOfDecimal | experiments/irw_crossline_r300_r600_r800_v60_v80_v100_full_state_guidance/run_irw_single_curve_guidance_simpack_realtime_comparison_arm.py:64-78 | the digits of a number are read as that number, leading zeros aside |
| StationProjection.CheckIncreasing | tools/dynamics_qualification/station_series_projection.cc:11-24 | comparing neighbours decides strict increase of the whole sequence |
| StationProjection.FirstFailureIs | tools/dynamics_qualification/station_series_projection.cc:28-64 | a series is accepted if and only if sizes agree, both grids rise and every target lies between the end stations; otherwise the first of these that fails is named |
| StationProjection.BracketsAgree | tools/dynamics_qualification/station_series_projection.cc:79-86 | every bracket of a target gives the same value |
| StationProjection.Pass | tools/dynamics_qualification/station_series_projection.cc:66-88 | the single forward index never leaves the source, gives each target the interpolation of any bracket it lies in, and moves at most source length minus two steps for all targets together |
| StationProjection.ProjectMonotoneSeriesToStationGrid | tools/dynamics_qualification/station_series_projection.cc:28-90 | the first failing check in order, or for every target the value a bisection of its own finds |
| StationProjection.ReproducesSamples | tools/dynamics_qualification/station_series_projection.cc:71-78 | at a source station the source value comes back |
| StationProjection.RefineAndReturn | tools/dynamics_qualification/station_series_projection.cc:28-90 | projecting to a grid that keeps the source stations, and back, restores the series |
| StationProjection.WithinBracket | tools/dynamics_qualification/station_series_projection.cc:79-86 | a value lies between the two samples around its target |
| StationProjection.KeepsMonotonicity | tools/dynamics_qualification/station_series_projection.cc:66-88 | rising samples give rising values, falling ones falling values |
| StationProjection.StraightStaysStraight | tools/dynamics_qualification/station_series_projection.cc:79-86 | samples on a straight line project onto that line |

## Left out

- The byte layout of datagram headers and the field checks of `decode_description` and `decode_state`: decoders are parameters, and a header arrives unpacked.
- `RunReport.snapshot` and `Receiver.report`: they format counters the model already accounts for.
- Interpreter exceptions other than the ones the receive step raises itself.
- The listing of candidate directories in `admitted_roots` and ledger parsing: the roots are any sequence of paths.
- The two include regular expressions: the includes of a file are a parameter, or unreadable; the scanner before them is modelled.
- Line separators other than the newline, carriage returns as line ends, and blanks beyond space, tab, newline and carriage return in the text functions.
- Blanks of a track definition that run across line ends, and digits other than 0 to 9 in the index of a historical line: both patterns are read within one line.
- Number formatting in the prepared models: numbers arrive as text without comment marks or newlines.
- The conversions of a read assignment to an integer or a scalar.
- Changes by processes outside the protocol while it runs, and any claim that a success directory and a failure result exclude each other across runners.
- The recursive order of `remove_all`: emptying and removing the directory are two steps.
- Existence of the parent directory and JSON validity before publication.
- The session constructor's check of its sample periods and evaluator: a session in the model has the fixed period.
- Vehicle dynamics, the controller recurrence and the torque conditioner: arbitrary deterministic functions that may fail.
- Rounding, not-a-number values and signed zero: times and torques are reals, and bitwise equal times are equal times.
- ExperimentRuns.RunIrwGuidanceExperiment: endpoint diagnostics, contact patches and output streams appear only as a write that may fail, and wall-clock times do not appear.
- IntegrationRunObjects.QualificationIntegrationRun.RecordFailure: of the record's fields only the stage and the ledger's work appear; times, configuration, timings and the error text do not, and encoding is a parameter.
- StationProjection.ProjectMonotoneSeriesToStationGrid: the checks for non-finite values have no counterpart over reals.
- Operating-point schedules, gain tables, sample clocks, state-layout checks, scenario dispatch, plotting, provenance checks, sockets, subprocesses and command lines.
