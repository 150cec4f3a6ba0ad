# Verified models of paas-cf's protocols and transformations

This project models, in Dafny, the parts of the repository in which a mistake is
hard to see from one function body: protocols that run over days or over many
goroutines, reconcilers that are run again and again, and transformations that
promise to lose nothing. Each module follows one component. Code that changes things
step by step is a method or a class, proved against a function of the old state;
what the component promises is then proved about that function.

- **CA rotation** (`CredHub`, `CaRotation`, `CaMove`, `RotationPhases`,
  `RotationSafety`, `RotationRounds`, `Hierarchy`). The CredHub store is explicit
  state; the set, move and remove scripts are loops over a client; the safety
  theorem quantifies over all sequences of runs, all clocks and all expiries the
  server may choose. The hierarchy check is modelled too, and is shown to decide the
  precondition of the rotation.
- **Availability monitor** (`Monitor`, `Review`). Producer, workers and collector
  as a transition system over two bounded channels and a halt signal.
- **Metrics pipeline** (`MetricsPipeline`, `PrometheusReporter`, `MetricOrder`).
  Pollers, their buffers, the fan-in and the reporter, over all interleavings, with
  one theorem from the pollers to the Prometheus registry, and another that says for
  which sources the interleaving does not matter.
- **Service hash** (`Fnv`, `FnvBase32`). 64-bit FNV-1a and the base32 text form,
  compared with section 6 of RFC 4648.
- **State reconcilers** (`VarsStore`, `Quotas`, `Parsing`, `UaaGroups`) and **tree
  and text transforms** (`ReorderYaml`, `PropertyTree`, `Decimal`, `ReleaseNotes`).

`Wrappers` and `Collections` hold what several modules share. `dafny verify
dfyconfig.toml` checks everything.

## What the proofs found

- The move script's guard against intermediate CAs indexes the leaf's *name* with
  the string "signs". A leaf whose name contains "signs" is not reissued when its CA
  moves, and unless its name also contains "name" the script dies there. The rotation
  is safe over all sequences of runs if and only if no leaf of a rotated CA has
  "signs" in its name; otherwise four runs scheduled for one day leave a leaf whose
  signer nobody trusts, whatever the server issues and in whatever order it lists
  certificates (`RotationIsSafeIff`, `TrustIsLost`).
- After `Stop` the monitor's producer may stay blocked for good on a full queue,
  because it looks at the halt signal only between two sends. Every monitor that has a
  task can end like that, with any number of workers (`ProducerCanBlockIff`; `AtRestIff`
  says exactly where a stopped monitor comes to rest).
- A source that reports the error value EOS closes the whole fan-in, under any schedule and
  whatever the other sources still have buffered; nothing else closes it (`EosAlwaysCloses`,
  `DrainsIff`, `OnlyEosCloses`).
- The order of two events of one name shows exactly when the metric is new and their
  units name it differently, or they set one gauge series to two values
  (`OrderMattersIff`). For whole sources, all interleavings agree if and only if the
  sources that set one gauge series leave it at one value; counters may be shared
  (`ConfluentIff`).
- Of a batch's failures the reporter returns the last one only (`ErrsIsLastFailure`,
  `FailureLostIff`).
- Service names are faithful for hashes of 16 hex digits and no others: `to_s(16)`
  drops leading zeros, so a shorter hash shares its name with sixteen times itself,
  unless it has 8 digits (`TextIsRfcIff`, `ShortHashesCollideIff`). The string "fo" has such
  a hash (`ShortHashIsReal`).
- Bringing a quota's log rate limit down does not only lower processes: one that was
  stopped at limit 0 is given the whole new limit (`RunRaisesIff`).
- A second run of the UAA reconciliation at the same instants makes no change if and only if
  every desired user has a Google origin, is the uaa admin, or is under an hour old;
  otherwise desired users are removed and added again (`SecondRunQuietIff`).
- A vars-store rotation that spares `x_old` but not `x` loses the value of `x`
  (`RotatedSecret`); a spared name itself is never touched (`SparedKeepValue`).

## What the server is taken to do

CredHub: a certificate has at most one transitional version and at least one that is
not; the active version is the newest that is not transitional; `current=true` returns
the active version, then the transitional one; a regenerated leaf is signed by its
CA's active version; a regenerated version expires after the one it replaces,
whatever the server proposes; a CA's `signs` list is the certificates, other than the
CA, whose `signed_by` is the CA; the listing names each certificate once. Version ids
are positions in the version list. UAA lists a member once and refuses to add a
member twice. An organization has one quota. These are written as contracts
(`ServerOk`, `Lists`, `Later`, `EachOnce`, `OneQuotaEach`).

## Model

| member | source | states |
|---|---|---|
| CredHub.Current | concourse/scripts/lib/credhub.rb:18-23 | the current versions are the active one and, if there is one, the transitional one, and are distinct |
| CredHub.RegeneratedOk | concourse/scripts/lib/credhub.rb:52-55 | regenerating a leaf keeps two levels, one transitional version at most, and CA versions in expiry order |
| CredHub.WithTransitionalOk | concourse/scripts/lib/credhub.rb:57-61 | so does a new transitional CA version, if there was none |
| CredHub.FlaggedOk | concourse/scripts/lib/credhub.rb:63-67 | so does moving or clearing the flag |
| CredHub.CredHubClient.RegenerateCertificate | concourse/scripts/lib/credhub.rb:52-55 | one certificate changes, and the server's invariant is kept |
| CredHub.CredHubClient.RegenerateCertificateAsTransitional | concourse/scripts/lib/credhub.rb:57-61 | the same for a transitional CA version |
| CredHub.CredHubClient.UpdateTransitionalVersion | concourse/scripts/lib/credhub.rb:63-67 | the same for the flag |
| CaRotation.SetTransitional | concourse/scripts/ca-rotation-set-transitional.rb:11-47 | the loop's result does not depend on the listing's order; the reported names are exactly the certificates that changed |
| CaRotation.SetActsIff | concourse/scripts/ca-rotation-set-transitional.rb:26-47 | a set run changes exactly the self-signed, not `_old` certificates with one current version that expires before the end of the day EXPIRY_DAYS from today |
| CaRotation.RemoveTransitional | concourse/scripts/ca-rotation-remove-transitional.rb:16-54 | the loop clears the flag of exactly the CAs whose newest version is active, and reports exactly those |
| CaRotation.OldNames | concourse/scripts/ca-rotation-set-transitional.rb:21-21 | on one-line names the pattern `_old$` means ending with "_old" |
| CaRotation.OldNamesIff | concourse/scripts/ca-rotation-set-transitional.rb:21-21 | in general it means that some line of the name ends with "_old" |
| CaRotation.GuardIs | concourse/scripts/ca-rotation-move-transitional.rb:56-59 | the guard holds of names that contain "signs", and its message dies on those of them that do not contain "name" |
| CaMove.MoveTransitional | concourse/scripts/ca-rotation-move-transitional.rb:12-96 | how a run ends (completed, no EXPIRY_DAYS, died) is decided by the store alone; a completed run leaves the order-independent result and reports the CAs moved and the leaves reissued, none twice; a run that died stopped at the first fatal name of the first moved CA of the listing that signs one |
| CaMove.DiedOneWay | concourse/scripts/ca-rotation-move-transitional.rb:55-63 | the listing settles where a run dies and what it leaves behind |
| CaMove.SignLeaf | concourse/scripts/ca-rotation-move-transitional.rb:55-63 | the guard skips a leaf by its name, dies on it, or lets it be signed by the CA's new active version |
| CaMove.MoveCas | concourse/scripts/ca-rotation-move-transitional.rb:30-65 | the first loop reissues every unguarded leaf of every moved CA, or stops at a leaf on which the guard dies |
| CaMove.RenewLeaves | concourse/scripts/ca-rotation-move-transitional.rb:69-96 | the second loop adds exactly the expiring single-version leaves that the first did not reissue |
| RotationPhases.PhaseShape | concourse/scripts/ca-rotation-move-transitional.rb:33-49 | a CA is in one of three phases, told apart by where its transitional version is; which version is active follows |
| RotationPhases.SetMovesPhase | concourse/scripts/ca-rotation-set-transitional.rb:26-47 | set acts on an expiring single version only, makes a newest transitional one, and leaves the active version alone |
| RotationPhases.MoveMovesPhase | concourse/scripts/ca-rotation-move-transitional.rb:30-53 | move acts when the newest version is transitional only, and swaps the two current versions' roles |
| RotationPhases.RemoveMovesPhase | concourse/scripts/ca-rotation-remove-transitional.rb:23-54 | remove acts when an older version is transitional only, and leaves the newest, active version alone current |
| RotationSafety.EveryRunOverlaps | concourse/scripts/ca-rotation-move-transitional.rb:46-64 | after any one run of any script, even one that died, each leaf's old signer is still trusted and its new signer already was |
| RotationSafety.MoveSignedIff | concourse/scripts/ca-rotation-move-transitional.rb:55-96 | a completed move leaves every leaf signed by its CA's active version exactly when the leaves the guard skipped were renewed by the second loop |
| RotationSafety.MoveReissuesIff | concourse/scripts/ca-rotation-move-transitional.rb:55-96 | a completed move run reissues exactly the leaves of moved CAs without "signs" in their names, and the leaves, not `_old`, with one current version that is due; each gets one new version that expires later |
| RotationSafety.SafeRuns | concourse/scripts/ca-rotation-move-transitional.rb:30-96 | over any finite sequence of runs at any clocks every leaf stays signed by its CA's active version, if names are safe |
| RotationSafety.SafeNamesIff | concourse/scripts/ca-rotation-move-transitional.rb:56-59 | names are safe when no leaf of a self-signed CA whose name does not end a line with "_old" contains "signs" |
| RotationSafety.TrustIsLost | concourse/scripts/ca-rotation-move-transitional.rb:56-59 | if one name is unsafe: remove, set, move and remove on one day, with EXPIRY_DAYS ahead, always end with a leaf whose signer is not among its CA's current versions, whatever is issued and listed |
| RotationSafety.RotationIsSafeIff | concourse/scripts/ca-rotation-move-transitional.rb:30-96 | over all runs, orders and clocks, and equally over scheduled runs, no leaf's signer ever goes missing if and only if no leaf of a rotated CA has "signs" in its name |
| RotationRounds.FullRotation | concourse/scripts/ca-rotation-remove-transitional.rb:23-54 | runs of set, move, remove on an expiring CA end at one fresh version; a CA caught midway is finished off; any other CA is untouched |
| RotationRounds.RoundIsARun | concourse/scripts/ca-rotation-remove-transitional.rb:23-54 | where no name is fatal the three runs have one outcome, the round's |
| RotationRounds.QuietIsFixed | concourse/scripts/ca-rotation-set-transitional.rb:26-47 | a store in which nothing is due is a fixpoint of a round |
| RotationRounds.RoundsReachFixpoint | concourse/scripts/ca-rotation-set-transitional.rb:26-47 | at a fixed clock, whatever three rounds of runs did, the third changed nothing, if new versions outlive EXPIRY_DAYS and no name is fatal |
| Hierarchy.AddKeepsConsistent | concourse/scripts/check-certificate-hierarchy.rb:19-28 | with one signer for each certificate, `signs` and `signed_by` stay two views of one relation over the names |
| Hierarchy.AcyclicIff | concourse/scripts/check-certificate-hierarchy.rb:44-49 | the recursion on signers terminates, with a rank falling at each step, exactly if no way up the signers returns to where it started |
| Hierarchy.CertificateHierarchy.AddEdge | concourse/scripts/check-certificate-hierarchy.rb:19-28 | the three fields after an edge; a self-signed certificate adds nothing |
| Hierarchy.DepthIsChainLength | concourse/scripts/check-certificate-hierarchy.rb:44-49 | `depth_for_cert` is the length of the certificate's one signer chain |
| Hierarchy.DepthTwoIff | concourse/scripts/check-certificate-hierarchy.rb:30-49 | the depth is 2 exactly when there is an edge and no signer is itself signed |
| Hierarchy.CertificateHierarchy.Depth | concourse/scripts/check-certificate-hierarchy.rb:30-32 | the result is attained by a certificate and exceeded by none; nothing for an empty hierarchy |
| Hierarchy.PrintVisitsEachOnce | concourse/scripts/check-certificate-hierarchy.rb:34-61 | printing visits every name, and each exactly once |
| Hierarchy.PrintCertIndents | concourse/scripts/check-certificate-hierarchy.rb:51-61 | a line's indentation is its certificate's depth |
| Hierarchy.PrintAllNested | concourse/scripts/check-certificate-hierarchy.rb:51-60 | a line indented by k has, as the nearest line above it with indentation k - 2, its signer's line |
| Hierarchy.ListedInOrder | concourse/scripts/check-certificate-hierarchy.rb:19-28 | what a CA signs is kept in the order of the listing |
| Hierarchy.CertificateHierarchy.Print | concourse/scripts/check-certificate-hierarchy.rb:34-61 | both facts for the lines printed; and every indented line has its signer's line as the nearest line above it that is indented less |
| Hierarchy.CheckPassesIff | concourse/scripts/check-certificate-hierarchy.rb:70-93 | the check passes exactly when some certificate is signed by another and no signer is listed as signed by another; if every signer is listed, that is the rotation's precondition of leaves and two levels |
| Review.Report.Ignored | platform-tests/availability/monitor/monitor.go:64-70 | an error is a warning exactly when some matcher matches it |
| Review.Report.Record | platform-tests/availability/monitor/monitor.go:58-94 | one result's effect on the counters and the nested maps |
| Review.RecordedAddsUp | platform-tests/availability/monitor/monitor.go:50-101 | after any results the counters add up to their number, each failure counter is the sum of its nested map, each entry counts the results with that task and message |
| Review.CountersCount | platform-tests/availability/monitor/monitor.go:58-94 | the counters count the results without an error, with an error no matcher matches, and with one that some matcher matches |
| Review.PassesIff | platform-tests/availability/monitor/monitor.go:166-176 | the run passes exactly when something ran, there is a target, and the share of bad results, warnings included, leaves room for it |
| Review.Report.TotalIsRecorded | platform-tests/availability/monitor/review.go:17-23 | the total of executions is the number of results recorded |
| Monitor.Conservation | platform-tests/availability/monitor/monitor.go:50-151 | in every reachable state, halted or not, each task was sent as often as it is queued, held, pending or recorded; the totals agree with the nested maps; channels and workers stay within numWorkers |
| Monitor.ReportsWhatTasksReturned | platform-tests/availability/monitor/monitor.go:50-137 | in every reachable state, of the results that tasks returned, those with any property are held, pending or recorded; the counters and each entry of the report are exactly what tasks returned, less what is on its way |
| Monitor.ChannelsKeepOrder | platform-tests/availability/monitor/monitor.go:104-151 | tasks are taken in the order sent, results are recorded in the order handed on, none lost or doubled |
| Monitor.TasksAreFair | platform-tests/availability/monitor/monitor.go:140-151 | the enqueue counts of two tasks never differ by more than one |
| Monitor.CanAlwaysRecord | platform-tests/availability/monitor/monitor.go:104-151 | before Stop, from any reachable state, a further result can be recorded within six actions |
| Monitor.RecordsKeepComing | platform-tests/availability/monitor/monitor.go:104-151 | under any scheduler, before Stop, every six actions record one more result, up to what workers and channels hold |
| Monitor.RunCanReturn | platform-tests/availability/monitor/monitor.go:95-116 | once halted, Run can return within two actions with the report as it was |
| Monitor.ReportIsFinal | platform-tests/availability/monitor/monitor.go:95-99 | no later action changes a report that is being delivered |
| Monitor.AtRestIff | platform-tests/availability/monitor/monitor.go:119-160 | exactly in which states a stopped monitor has nothing left to do |
| Monitor.ProducerCanBlockIff | platform-tests/availability/monitor/monitor.go:140-151 | a stopped monitor at rest with its producer blocked in a send is reachable if and only if the monitor has a task |
| MetricsPipeline.MergedStreamIsInterleaving | tools/metrics/pkg/metrics/metrics.go:84-181 | restricted to one source the merged stream is a prefix of what the source wrote, errors included; the lag is bounded by the buffers and the item in hand |
| MetricsPipeline.LagIsAttained | tools/metrics/pkg/metrics/metrics.go:84-181 | the bound on the lag is attained, for every number of sources and every source |
| MetricsPipeline.OnlyEosCloses | tools/metrics/pkg/metrics/metrics.go:166-181 | the fan-in is closed by no source that never reports EOS |
| MetricsPipeline.EosAlwaysCloses | tools/metrics/pkg/metrics/metrics.go:166-181 | with an EOS buffered and no new writes, every schedule closes the fan-in within the actions under way; until then the EOS is still buffered |
| MetricsPipeline.EosCanClose | tools/metrics/pkg/metrics/metrics.go:166-181 | and there is such a run |
| MetricsPipeline.DrainsIff | tools/metrics/pkg/metrics/metrics.go:143-181 | if the sources pause, everything written can be delivered with the fan-in open if and only if no buffer holds an EOS |
| MetricsPipeline.CopyingIsProgress | tools/metrics/pkg/metrics/metrics.go:143-181 | each action of a copier or the reader brings everything under way one step nearer to delivery |
| MetricsPipeline.SomethingEnabled | tools/metrics/pkg/metrics/metrics.go:143-181 | while anything is under way some copier or the reader can act: no deadlock |
| MetricsPipeline.CanDrain | tools/metrics/pkg/metrics/metrics.go:143-181 | everything written can be delivered, each source's events complete and in order |
| MetricsPipeline.EveryDrainEnds | tools/metrics/pkg/metrics/metrics.go:143-181 | and is, under any schedule, after exactly the number of actions under way |
| PrometheusReporter.Reporter.WriteMetric | tools/metrics/pkg/prometheus_reporter/prometheus_reporter.go:32-85 | one event's effect, failure or panic, on the vecs and the registered names |
| PrometheusReporter.Reporter.WriteMetrics | tools/metrics/pkg/prometheus_reporter/prometheus_reporter.go:29-89 | a batch is its events in order; a failure skips its event only; the error returned is the last |
| PrometheusReporter.LabelsAre | tools/metrics/pkg/prometheus_reporter/prometheus_reporter.go:32-37 | an event has a label for each tag name, with the value of the last tag of that name |
| PrometheusReporter.FullNameIs | tools/metrics/pkg/prometheus_reporter/prometheus_reporter.go:39-45 | the registered name is the name with dots as underscores, and an underscore and the lower-case unit unless there is no unit or the name ends with it |
| PrometheusReporter.ReportPanicsIff | tools/metrics/pkg/prometheus_reporter/prometheus_reporter.go:32-85 | exactly when an event panics: a new metric whose full name is taken or whose tags repeat a name, a metric of the other kind, or a counter that would go down |
| PrometheusReporter.ReportFailsIff | tools/metrics/pkg/prometheus_reporter/prometheus_reporter.go:57-82 | exactly when an event fails: its metric is there, with other label names; a failure writes nothing |
| PrometheusReporter.ReportWrites | tools/metrics/pkg/prometheus_reporter/prometheus_reporter.go:32-85 | any other event writes the one series whose labels its tags give, adding or setting, and nothing else |
| PrometheusReporter.ErrsIsLastFailure | tools/metrics/pkg/prometheus_reporter/prometheus_reporter.go:60-82 | the error of a batch is its last failure, and none only if nothing failed |
| PrometheusReporter.FailureLostIff | tools/metrics/pkg/prometheus_reporter/prometheus_reporter.go:60-82 | a failure goes unreported exactly when a later event of the batch fails too |
| PrometheusReporter.Commute | tools/metrics/pkg/prometheus_reporter/prometheus_reporter.go:32-85 | two events that agree on names commute, unless they set one gauge series |
| PrometheusReporter.ReportAllIsPutAll | tools/metrics/pkg/prometheus_reporter/prometheus_reporter.go:29-89 | sound events that agree on names never fail or panic |
| PrometheusReporter.Confluence | tools/metrics/pkg/prometheus_reporter/prometheus_reporter.go:29-89 | every interleaving of the same source streams leaves the same registry, if each gauge series has one source |
| PrometheusReporter.CounterShowsSum | tools/metrics/pkg/prometheus_reporter/prometheus_reporter.go:48-66 | a counter series shows the sum of its events |
| PrometheusReporter.GaugeShowsLast | tools/metrics/pkg/prometheus_reporter/prometheus_reporter.go:67-84 | a gauge series shows its last event |
| PrometheusReporter.AnyScheduleSameRegistry | tools/metrics/pkg/metrics/metrics.go:84-181 | two schedules of the whole pipeline that delivered the same from each source leave Prometheus in the same state, with no failure |
| PrometheusReporter.OrderMattersIff | tools/metrics/pkg/prometheus_reporter/prometheus_reporter.go:39-85 | two events of one name are both reported in either order, and leave the same registry exactly if the metric was there or their full names agree, and they are counters, of two series, or of one value |
| MetricOrder.SettledAgree | tools/metrics/pkg/prometheus_reporter/prometheus_reporter.go:29-89 | sources that leave each gauge series they share at one value leave one registry, however they are merged |
| MetricOrder.ConfluentIff | tools/metrics/pkg/prometheus_reporter/prometheus_reporter.go:29-89 | every interleaving of given sources leaves the same registry if and only if sources that set one gauge series leave it at one value |
| Fnv.Fnv | tools/aws_redis_update_manager/lib/fnv.rb:22-33 | the loop computes the fold of the FNV-1a step and stays below 2^64 |
| Fnv.StepUndone | tools/aws_redis_update_manager/lib/fnv.rb:29-33 | for a fixed byte a step is a bijection on the 64-bit states |
| Fnv.StepTellsBytes | tools/aws_redis_update_manager/lib/fnv.rb:29-33 | for a fixed state a step is injective in the byte |
| Fnv.OneByteTells | tools/aws_redis_update_manager/lib/fnv.rb:22-33 | two strings of one length that differ in exactly one byte have different hashes |
| Fnv.HashOfFo | tools/aws_redis_update_manager/lib/fnv.rb:22-33 | the hash of the string "fo" |
| Fnv.HashOfGuid1 | tools/aws_redis_update_manager/lib/fnv.rb:22-33 | the hash of the string "guid-1" |
| FnvBase32.FnvBase32Encode | tools/aws_redis_update_manager/lib/fnv.rb:1-20 | the substitution and its eight divmods spell the padded groups in base 32, cut to 13 characters |
| FnvBase32.GroupsStartWithRfc | tools/aws_redis_update_manager/lib/fnv.rb:4-17 | for every input the unpadded RFC 4648 text is the start of what the groups spell |
| FnvBase32.EncodeIsRfcIff | tools/aws_redis_update_manager/lib/fnv.rb:1-20 | the encoder agrees with RFC 4648 on inputs of eight bytes and on no others |
| FnvBase32.DecodeRfc | tools/aws_redis_update_manager/lib/fnv.rb:19-19 | a decoder recovers every 64-bit number from its 13 characters: the cut loses nothing |
| FnvBase32.FnvName | tools/aws_redis_update_manager/lib/fnv.rb:22-37 | the whole of `fnv`: the text of the hash |
| FnvBase32.NameOfGuid1 | tools/aws_redis_update_manager/spec/fnv_spec.rb:4-4 | the name of the string "guid-1" is the one the repository's tests expect |
| FnvBase32.TextIsRfcOfShifted | tools/aws_redis_update_manager/lib/fnv.rb:35-36 | the text is the RFC 4648 text of the hash shifted left until its first hex digit is not zero |
| FnvBase32.TextIsRfcIff | tools/aws_redis_update_manager/lib/fnv.rb:35-36 | the text is that of the hash's eight bytes, and decodes to the hash, exactly for hashes of at least 2^60 |
| FnvBase32.FullHashesTell | tools/aws_redis_update_manager/lib/fnv.rb:35-36 | different hashes of at least 2^60 have different texts |
| FnvBase32.ShortHashesCollideIff | tools/aws_redis_update_manager/lib/fnv.rb:35-36 | a hash below 2^60 shares its text with sixteen times itself exactly if it does not have 8 hex digits |
| FnvBase32.ShortHashIsReal | tools/aws_redis_update_manager/lib/fnv.rb:22-37 | the string "fo" has a hash of 15 digits; its text is not the RFC 4648 one, decodes to sixteen times the hash, and is shared |
| FnvBase32.NamesTell | tools/aws_redis_update_manager/lib/fnv.rb:22-37 | identifiers that differ in one byte get different names when both hashes have 16 digits |
| VarsStore.BaseNameStripsOnce | manifests/cf-manifest/scripts/rotate-vars-store-secrets.rb:109-109 | the base name of a one-line name is the name without one trailing "_old" |
| VarsStore.RotateSecret | manifests/cf-manifest/scripts/rotate-vars-store-secrets.rb:40-72 | the loop equals moving all chosen names at once |
| VarsStore.MovedTwice | manifests/cf-manifest/scripts/rotate-vars-store-secrets.rb:116-120 | two rotations over the same variables are one rotation of both choices |
| VarsStore.DeleteOld | manifests/cf-manifest/scripts/rotate-vars-store-secrets.rb:74-96 | old certificates end blank and other old variables gone, the last variable of a name deciding |
| VarsStore.Rotate | manifests/cf-manifest/scripts/rotate-vars-store-secrets.rb:98-123 | the five passes equal the order-independent specification over the filtered variables |
| VarsStore.PassOrderIrrelevant | manifests/cf-manifest/scripts/rotate-vars-store-secrets.rb:116-120 | passes commute and repeat harmlessly |
| VarsStore.VariableOrderIrrelevant | manifests/cf-manifest/scripts/rotate-vars-store-secrets.rb:53-68 | the order of the manifest's variables does not matter |
| VarsStore.RotateTwice | manifests/cf-manifest/scripts/rotate-vars-store-secrets.rb:98-123 | a second run with the same options changes nothing |
| VarsStore.NothingInvented | manifests/cf-manifest/scripts/rotate-vars-store-secrets.rb:40-96 | no value appears that was not there, blank certificates in a deletion apart |
| VarsStore.SparedKeepValue | manifests/cf-manifest/scripts/rotate-vars-store-secrets.rb:108-120 | for all options an entry that is preserved, whose base name is not to be rotated, or that the manifest does not name keeps its value |
| VarsStore.RotatedSecret | manifests/cf-manifest/scripts/rotate-vars-store-secrets.rb:60-67 | a secret that is not spared, and whose type is asked for, leaves its name; its value is at its `_old` name if the manifest names that and it is not spared, and is gone otherwise |
| VarsStore.RotatedAt | manifests/cf-manifest/scripts/rotate-vars-store-secrets.rb:40-72 | what a rotation does to any name, told from the options and the manifest: an `_old` name in scope takes the secret of a name that leaves, every other name keeps its value unless it leaves |
| VarsStore.AskingForOneKeepsIt | manifests/cf-manifest/scripts/rotate-vars-store-secrets.rb:108-110 | asking for `x` alone frees `x` and puts its value at `x_old`, if neither is preserved |
| VarsStore.DeletedAt | manifests/cf-manifest/scripts/rotate-vars-store-secrets.rb:74-96 | what a deletion does to any name: an `_old` name in scope turns blank or goes, as the last variable of that name decides, and no other name is touched |
| VarsStore.AskingForOneDeletesIt | manifests/cf-manifest/scripts/rotate-vars-store-secrets.rb:108-110 | asking for `x` alone is enough to delete `x_old` |
| ReorderYaml.SortIff | manifests/cf-manifest/scripts/reorder-yaml.rb:27-32 | the sort is the one stable sort by ordering key |
| ReorderYaml.DocumentedOrder | manifests/cf-manifest/scripts/reorder-yaml.rb:4-11 | elements with a negative number at `__paas_order`, then those without one (or with 0) as they were, then those with a positive number; of two numbers the smaller comes first |
| ReorderYaml.OrderIs | manifests/cf-manifest/scripts/reorder-yaml.rb:27-32 | the number sorted by is that of the element's first `__paas_order` field, and 0 if it has none |
| ReorderYaml.ArraysAreSorted | manifests/cf-manifest/scripts/reorder-yaml.rb:25-35 | an array's result is, and is only, its stable sort with the elements processed |
| ReorderYaml.NothingMarked | manifests/cf-manifest/scripts/reorder-yaml.rb:36-43 | no ordering key is left at any depth |
| ReorderYaml.UnaffectedIff | manifests/cf-manifest/scripts/reorder-yaml.rb:15-15 | exactly the trees without ordering keys are unaffected |
| ReorderYaml.Idempotent | manifests/cf-manifest/scripts/reorder-yaml.rb:23-46 | processing twice is processing once |
| Parsing.ParseWritten | concourse/scripts/lib/parsing.rb:4-31 | every number written out with any suffix, in either case, is read as that many units |
| Parsing.FactorsAre | concourse/scripts/lib/parsing.rb:4-31 | the suffixes are the first four powers of 1024, in either case, and there are no others |
| Parsing.TenMegabytes | concourse/scripts/lib/parsing.rb:4-31 | "10M" is 10485760 |
| Parsing.ParseOneLineIff | concourse/scripts/lib/parsing.rb:4-31 | a line is accepted exactly if it is digits and at most one suffix |
| Quotas.ScaleCallSafeIff | concourse/scripts/set_process_log_rate_limits.rb:32-42 | where every process fits its quota, one scaling call keeps that so exactly when the new limit is not negative |
| Quotas.ScalingRaisesIff | concourse/scripts/set_process_log_rate_limits.rb:32-42 | scaling raises a process exactly when it was stopped at 0 |
| Quotas.ApplyToProcesses | concourse/scripts/set_process_log_rate_limits.rb:13-43 | the calls made, even by a run cut short, only rescale processes of the quota; a complete run rescales all of them, or none if the quota's limit does not come down |
| Quotas.SettledQuota | concourse/scripts/set_quotas_from_manifest.rb:35-45 | null makes a quota unlimited, a quantity sets it to what the processes were lowered to, no setting leaves it; a settled quota has nothing to lower |
| Quotas.MinusOneIsUnlimited | concourse/scripts/set_quotas_from_manifest.rb:35-45 | a limit of -1, as a number or a string, makes a quota unlimited |
| Quotas.StepIsSafe | concourse/scripts/set_quotas_from_manifest.rb:40-43 | lowering the processes first makes the new quota fit them |
| Quotas.QuotasSetter.CreateUpdateQuota | concourse/scripts/set_quotas_from_manifest.rb:22-46 | one definition's effect; every call leaves every process within its quota |
| Quotas.QuotasSetter.Apply | concourse/scripts/set_quotas_from_manifest.rb:14-46 | for non-negative limits a process never exceeds its quota after any call of a whole manifest run, including one that failed half way |
| Quotas.RunIs | concourse/scripts/set_quotas_from_manifest.rb:14-46 | what a run does to each quota and process, each process following its own quota's definition only |
| Quotas.RunProcessIs | concourse/scripts/set_process_log_rate_limits.rb:13-43 | what becomes of a process, told from its quota before and after: if the limit came down to n, a process above 0 and within n stays and any other is set to n; otherwise nothing changes |
| Quotas.RunRaisesIff | concourse/scripts/set_process_log_rate_limits.rb:32-42 | a run of non-negative limits raises exactly the processes stopped at 0 whose quota comes down to more than 0 |
| Quotas.OrderIrrelevant | concourse/scripts/set_quotas_from_manifest.rb:14-18 | the order of the definitions does not matter |
| Quotas.SecondRunChangesNothing | concourse/scripts/set_process_log_rate_limits.rb:14-17 | a second complete run changes nothing |
| UaaGroups.RemoveUnexpectedMembers | tools/user_management/lib/group.rb:16-53 | exactly the unexpected members of an hour or more are removed, in order; a missing group raises |
| UaaGroups.AddDesiredUsers | tools/user_management/lib/group.rb:55-82 | exactly the missing desired users are added; it succeeds exactly when none of them is configured twice |
| UaaGroups.EnsureGroups | tools/user_management/lib/actions.rb:17-24 | a successful run reconciles each group; it succeeds if the groups exist and no user is configured twice in one |
| UaaGroups.ReconciledMembers | tools/user_management/lib/group.rb:16-73 | membership ends as the desired guids and the initial members that are the uaa admin or under an hour old |
| UaaGroups.SecondRunQuietIff | tools/user_management/lib/group.rb:16-73 | a second run at the same instants removes and adds nobody exactly when every desired user is Google's, the uaa admin, or young |
| UaaGroups.SecondRunSameMembers | tools/user_management/lib/group.rb:16-73 | a second run leaves the same people members in any case |
| UaaGroups.EachGroup | tools/user_management/lib/actions.rb:17-24 | groups do not interfere |
| PropertyTree.LeavesAreLeaves | manifests/shared/spec/support/property_tree.rb:56-76 | the positions visited are the positions of leaves, all of them |
| PropertyTree.LeavesInOrder | manifests/shared/spec/support/property_tree.rb:56-76 | they are visited once each, in document order |
| PropertyTree.InjectIsFold | manifests/shared/spec/support/property_tree.rb:56-80 | `inject` is a fold over them, each with its own path |
| PropertyTree.GetFindsLeaf | manifests/shared/spec/support/property_tree.rb:12-30 | following the keys of the way down to a leaf finds the leaf, if element names are strings, unique and not integer-like |
| PropertyTree.FirstNamedIsFirst | manifests/shared/spec/support/property_tree.rb:20-26 | a key that is not integer-like finds the first element of that name, nil if there is none |
| PropertyTree.IndexKeys | manifests/shared/spec/support/property_tree.rb:20-26 | an integer-like key is an index, from the end if negative, nil outside |
| PropertyTree.PathGivesKeys | manifests/shared/spec/support/property_tree.rb:53-72 | those keys are what the reported path says, read between its slashes without `name=`, if no key contains a slash or starts with `name=` |
| PropertyTree.ReportedPathFindsLeaf | manifests/shared/spec/support/property_tree.rb:12-76 | so the path `inject` reports for a leaf leads `recursive_get` back to it |
| ReleaseNotes.CommentifyReleaseNotes | tools/buildpacks/email.go:301-333 | the loops write the template, introduction and all |
| ReleaseNotes.TemplateShowsNotes | tools/buildpacks/email.go:301-333 | the template shows the buildpack's name, every version and every line of the notes, commented out |
| ReleaseNotes.StripCommentedLines | tools/buildpacks/email.go:336-345 | the loop keeps the uncommented lines and trims |
| ReleaseNotes.TrimSpaceIs | tools/buildpacks/email.go:336-345 | trimming takes the white space at both ends, all of it, and nothing else |
| ReleaseNotes.TemplateStripsAway | tools/buildpacks/email.go:301-345 | for any user text, stripping the text followed by the template is stripping the text alone |
| ReleaseNotes.TextSurvivesIff | tools/buildpacks/email.go:336-345 | the user's text survives, trimmed, exactly when no line of it starts with a hash |

## Left out

- RotationRounds.FullRotation: with a fatal name a move run dies (`CaMove.MoveTransitional`), and what rounds of such runs come to is not stated; the repository has no recovery for a partial move.
- RotationSafety.RotationIsSafeIff: assumes two levels and every leaf signed by its CA's active version to start with; hierarchies deeper than two are not supported by the scripts.
- CredHub's `live_certificates`, `transitional_certificates` and `credential`: not called by the rotation scripts.
- Hierarchy.DepthIsChainLength: on a cycle of signers the program does not terminate, which is not modelled.
- Review.RecordedAddsUp: counters are unbounded; the program's are 64-bit.
- Review.PassesIff: percentages are reals; rounding is not modelled.
- Monitor: tasks added while it runs, concurrent calls of Stop, Stop before Run, wall-clock timing, task functions that never return, the text of the report.
- MetricsPipeline: behaviour after the first Close, when writers race with the closing of the channel; polling intervals; MultiMetricWriter, a loop over writers.
- PrometheusReporter.Reporter.WriteMetric: metric values are reals; lower-casing is ASCII; Prometheus' own checks of metric and label name syntax are not modelled.
- VarsStore.RotateSecret: a vars store that is not a hash, which the program returns as it is, and an `is_ca` option that is not a boolean.
- ReorderYaml.SortIff: ordering keys that are not numbers, which the script's header does not allow for; keys of hashes are strings.
- Parsing.ParseWritten: floating-point quantities and strings on several lines are only covered by the function, not by the lemma.
- Quotas.QuotasSetter.Apply: memory, service and route limits, which are passed on unchanged; paging; processes changed by somebody else meanwhile; a failed listing call, which stops a run between two of the calls modelled.
- UaaGroups.EnsureGroups: API failures other than a missing group or a member added twice; creating users.
- PropertyTree.GetFindsLeaf: hash keys that are not strings; and `get`, which splits its argument at dots, so that keys that contain dots cannot be given to it (the model takes the list of keys).
- The remaining gauges, service wrappers, secret upload scripts, manifest specs, linters, example applications and acceptance tests: I/O plumbing or static data.
