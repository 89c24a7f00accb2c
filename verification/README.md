# Verified model of Ollie's stateful core

Ollie observes Kubernetes clusters: a controller decides which pods are monitored and streams deltas to agents, agents
capture spans and metrics, and sinks store logs in shards that are archived, compacted and searched.  This project
models the parts of that system that keep state, and proves what each of them is for.

Each component has the same shape.  Its state and its steps are values and functions.  Where goroutines share state, a
transition system (`Enabled`, `Next`, `Inv`, `IsRun`, `RunTo`) takes the code apart into the steps between which others
can act, and theorems quantify over all runs.  The objects themselves are classes and loops, proved against the same
functions.  Go's random map order is an arbitrary order (`MapRange.Enumerates`).

- `ControlPlane`, `Dispatcher`, `Delivery`: the delta protocol between the controller's dispatcher, its sessions and the
  agents.
- `Coverage`, `Covering`: which custom resource covers which pod, and the status of the resources.
- `Wire`, `ShardFormat`, `ShardWriter`: the framed shard format with in-band type declarations, and its writer under
  rotation.
- `Compaction`, `CompactionRun`: raw shards into Parquet parts, committed by markers.
- `Retention`: upload, cleanup and restart.
- `Text`, `Labels`, `Collector`, `Histograms`, `Double`: the collector that re-exposes OBI metrics on a widening label
  schema.
- `SpanRing`, `LiveTail`: the span ring, its drop-oldest subscribers and the gap-carrying filter.
- `Glob`, `LogSearch`, `Selector`: glob matching, distributed top-k with shard pruning, and label selectors as PromQL.
- `Reload`, `Lifecycle`: the coalescing config writer, and starting and stopping the capture bridge.
- `Prelude`, `MapRange`: what several of these share.

`dafny verify dfyconfig.toml` checks the whole project.

## Where the code and its documentation differ

The model follows the code.  The lemmas named here give concrete inputs and exact conditions.

- A pod that moves to another node is not removed from the old node's agent (`ControlPlane.MovedPodLingers`,
  `Delivery.ApplyExactIff`).  `Apply`'s comment promises a REMOVE only for pods that vanish.
- The dispatcher's comment says agents ignore old generations; `handle` does not look at them.  Within a session it
  makes no difference (`ControlPlane.SessionNeedsNoCheck`); across a restart of the controller it would
  (`ControlPlane.RestartWouldBeIgnored`, `ControlPlane.NoneIgnoredIff`).
- A delivery's gap is documented as the loss since the previous delivery; it is attached to the newest delivery, so this
  holds only for a channel of size one (`LiveTail.GapSinceLastIff`).
- A second writer may append a record before its type is declared, and readers skip it
  (`ShardWriter.TwoWritersLoseARecord`); so may one writer, after the declaration has failed
  (`ShardWriter.FailedDeclarationLosesARecord`).  `ShardWriter.ReadBackIffPatient` and `ShardWriter.ReadBackIffCareful`
  are exact.
- Label keys are sorted before they are renamed, so a schema can be out of order and get a key twice
  (`Labels.RenamingCanUnsort`, `Labels.SchemaSortedIff`); a NUL in a value merges series (`Collector.NulMergesSeries`,
  `Collector.PlaceAloneIff`).
- `specsAgree` is said to compare port sets and compares bags (`Coverage.SetAgreeSufficesIff`,
  `Coverage.AgreeIsSetAgree`), and it can disagree where the wire shows no difference (`Coverage.WireDecidesIff`,
  `Coverage.WireDecidesRepeatFreeIff`).
- Pruning is exact only for shards whose records lie near their interval (`LogSearch.PruningExactIff`), and a query whose
  end is within five minutes of the largest `int64` finds nothing, since the sum wraps around
  (`LogSearch.LateEndLosesARecord`, `LogSearch.PruningByEndIff`, `LogSearch.SearchExactIff`).
- Histogram counters are 64 bits wide and shown as `float64` (`Histograms.RoundingLosesOne`,
  `Histograms.ScrapeFaithfulIff`).
- A metric without a name is recorded and never exposed (`Collector.AcceptedIff`).
- The search limit is converted to 32 bits (`LogSearch.LimitLostOnTheWire`).
- An upload that takes effect and is reported as failed can leave a wrong size in the cache, if it replaced an object of
  another size (`Retention.ArchiveBucket.Upload`); the sink never archives two versions of a shard, so it cannot there.
- A selector that asks for an empty value also selects series without the label (`Selector.FaithfulIff`).
- `Stop` is said to drain the receiver; called while `Start` is binding it, it does not see it and leaves it running
  (`Lifecycle.ReceiverLeft`, `Lifecycle.ReceiverLeftIff`).
- A config write that fails is not repeated until something else changes (`Reload.FailedWriteIsForgotten`,
  `Reload.RepairNeedsChange`, `Reload.ChangeRepairs`).

## Assumptions

- Shard names are fresh, since they are taken from the clock, and a compaction run's clock is later than that of the run
  before it; one compactor at a time.
- An object appears in the archive whole or not at all.
- Names of custom resources and UIDs of pods are unique, and specs are keyed by their own pod's UID, as Kubernetes and
  the reconciler provide.
- Shards are named by times since 1970, where that matters.
- `sort.Slice` and `sort.Strings` are any functions that sort; where the result is not determined, theorems hold for all.
- Events recorded by the collector have allowed keys that are in order after renaming, with values without NUL.

## Model

| member | source | states |
|---|---|---|
| `ControlPlane.StepKeeps` | pkg/controller/stream/dispatcher.go:71-160 | every step of every interleaving keeps the protocol invariant: queues bounded, generations increasing per pod, a session in the table open, a registered one that is not in the table closed, and each agent bound to agree with the table on its node and to hold beyond that only strays and pods it started with |
| `ControlPlane.DeltasConverge` | pkg/controller/stream/dispatcher.go:71-160 | in every reachable state between calls, a session without drops was sent every pod of its node as last applied under the pod's current generation, and its queue folded into the agent's map agrees with those specs; an agent that started empty will hold exactly those and the pods that moved away, so it is exact if and only if there are none of these |
| `ControlPlane.RegisteredIsOpen` | pkg/controller/stream/server.go:81-86 | in every reachable state a registered session is for its own node and open, so no delta is sent on a closed queue, and generations strictly increase per pod within it |
| `ControlPlane.DisplacedIsClosed` | pkg/controller/stream/dispatcher.go:71-78 | in every reachable state a session that has registered and not unregistered is closed if and only if another one is in the table for its node |
| `ControlPlane.OneOpenPerNode` | pkg/controller/stream/dispatcher.go:71-78 | so of those at most one is open for each node |
| `ControlPlane.RemovalIsSent` | pkg/controller/stream/dispatcher.go:142-159 | for every pod and spec: a run in which the pod is applied and then vanishes, after which its node has been sent a removal with its UID and node under the next generation |
| `ControlPlane.QueueOnAgent` | pkg/controller/agentclient/client.go:249-275 | the agent's map after everything sent is the queue folded into the map it has now |
| `ControlPlane.CheckNeverFires` | pkg/controller/agentclient/client.go:249-275 | whatever generations an agent has seen, if they strictly increase from there on for each pod, then ignoring old ones, as the dispatcher's comment says agents do, changes nothing |
| `ControlPlane.NoneIgnoredIff` | pkg/controller/stream/dispatcher.go:48-50 | an agent with the documented check ignores no delta if and only if, for each pod, generations strictly increase from the last one it has seen |
| `ControlPlane.SessionNeedsNoCheck` | pkg/controller/stream/dispatcher.go:48-50 | within a session, in every reachable state, nothing that was sent would be ignored, and the agent ends as it does without the check |
| `ControlPlane.RestartWouldBeIgnored` | pkg/controller/stream/dispatcher.go:48-50 | for every pod and two specs of it on one node: a run of one controller and a run of the next, after which the documented agent and the real one hold different specs |
| `ControlPlane.MovedPodLingers` | pkg/controller/stream/dispatcher.go:121-139 | for every pod and two specs of it on different nodes: a run from the start, with nothing dropped, after which the agent of the first node is bound to keep the pod although nothing is applied to its node |
| `ControlPlane.RegisterKeeps` | pkg/controller/stream/dispatcher.go:71-78 | installing a session closes the one it displaces and keeps the invariant |
| `ControlPlane.ReplayKeeps` | pkg/controller/stream/dispatcher.go:81-94 | each replayed spec keeps the invariant and shrinks what the agent still lacks |
| `ControlPlane.UpsertOneKeeps` | pkg/controller/stream/dispatcher.go:121-139 | one pass of the upsert loop keeps the invariant and sets the pod's entry |
| `ControlPlane.RemoveOneKeeps` | pkg/controller/stream/dispatcher.go:142-159 | one pass of the remove loop keeps the invariant and deletes the pod's entry |
| `ControlPlane.LoopsGoOn` | pkg/controller/stream/dispatcher.go:121-159 | the loops of `Apply` and `RegisterSession` can take every key they have left, whatever happens in between |
| `Delivery.ApplyExactIff` | pkg/controller/stream/dispatcher.go:116-160 | after a whole `Apply`, in any map order and with nothing received meanwhile, an exact agent is exact again if and only if no pod moves away from its node and the queue has room for every change on the node |
| `Delivery.OneTurn` | pkg/controller/stream/dispatcher.go:121-159 | one pod's turn changes the table and the agent for that pod only, and queues at most one delta |
| `Delivery.TurnRightIff` | pkg/controller/stream/dispatcher.go:121-159 | after its turn a pod is right on the agent just if its delta fitted, or it had none and did not move away |
| `Dispatcher.Session.EnqueueDelta` | pkg/controller/stream/session.go:68-82 | nothing once closed; else append while fewer than 1024 are queued, and otherwise only count a drop |
| `Dispatcher.Session.Close` | pkg/controller/stream/session.go:86-94 | idempotent close |
| `Dispatcher.Dispatcher.constructor` | pkg/controller/stream/dispatcher.go:59-65 | an empty dispatcher satisfies the invariant |
| `Dispatcher.Dispatcher.Apply` | pkg/controller/stream/dispatcher.go:116-160 | for every map order: the new state is the fold of the protocol's steps, the table equals the argument, and the invariant holds |
| `Dispatcher.Dispatcher.UpsertPod` | pkg/controller/stream/dispatcher.go:121-139 | the body of the first loop is the protocol's upsert step |
| `Dispatcher.Dispatcher.RemovePod` | pkg/controller/stream/dispatcher.go:142-159 | the body of the second loop is the protocol's remove step |
| `Dispatcher.Dispatcher.RegisterSession` | pkg/controller/stream/dispatcher.go:71-95 | for every map order: the session takes its node's place in the table, the one it displaces is closed, exactly the specs of the node are replayed, and the invariant holds |
| `Dispatcher.Dispatcher.UnregisterSession` | pkg/controller/stream/dispatcher.go:100-106 | removes the session only if it is still the registered one, and keeps the invariant |
| `Coverage.SpecsAgree` | pkg/controller/reconciler/coverage.go:222-261 | true if and only if the same protocols are enabled and, where enabled, the port lists are equal as bags |
| `Coverage.AgreeSameWire` | pkg/controller/reconciler/coverage.go:181-261 | resources that agree have the same protocol bits and port set on the wire |
| `Coverage.AgreeIsSetAgree` | pkg/controller/reconciler/coverage.go:222-261 | for resources whose enabled port lists have no repeats, agreeing is what the comment says: the same protocols, each with the same port set |
| `Coverage.SetAgreeSufficesIff` | pkg/controller/reconciler/coverage.go:222-261 | a resource agrees with all that have the same protocols and port sets, if and only if it lists no ports |
| `Coverage.WireDecidesIff` | pkg/controller/reconciler/coverage.go:181-280 | a resource agrees with all that look the same on the wire, if and only if it has no port there |
| `Coverage.WireDecidesRepeatFreeIff` | pkg/controller/reconciler/coverage.go:181-280 | among resources without repeats: if and only if it does not enable both HTTP and gRPC, or has no port on the wire |
| `Coverage.SameWireMayDisagree` | pkg/controller/reconciler/coverage.go:222-280 | the two kinds of pairs that look the same on the wire and still disagree: a port listed twice, and ports exchanged between HTTP and gRPC |
| `Coverage.BuildSpecFromCovering` | pkg/controller/reconciler/coverage.go:181-220 | no spec without an enabled protocol; else the bits and the ascending list of all enabled ports without repetition |
| `Coverage.BuildSpecMeans` | pkg/controller/reconciler/coverage.go:181-220 | the spec in the terms of the resource: the pod's identity and the source, bit 1, 2 and 8 for L4, HTTP and gRPC, and every port of an enabled protocol once, as an unsigned number, ascending; none if no protocol is enabled |
| `Covering.SelectCovering` | pkg/controller/reconciler/spec.go:64-106 | the matching monitor with the least name, or else the matching policy with the least name, or none |
| `Covering.CoversMeans` | pkg/controller/reconciler/spec.go:64-106 | which resource covers a pod, in the terms of selectors and names: a selecting monitor of the pod's namespace goes before every policy, a selector in error selects nothing, a policy without one everything, and no selecting resource with a smaller name is passed over |
| `Covering.ComputeSpecMeans` | pkg/controller/reconciler/spec.go:53-62 | what is dispatched is built from that resource and names it |
| `Covering.SpecOrderFree` | pkg/controller/reconciler/spec.go:47-106 | which resource covers a pod, and the pod's spec, do not depend on the order of the resources |
| `Covering.ComputeCoverage` | pkg/controller/reconciler/coverage.go:73-172 | specs of all pods and, for every resource and nothing else, its matched and covered pods in order and its conflicts without repetition, each as defined independently of the loop |
| `Covering.MatchedPodsMean` | pkg/controller/reconciler/coverage.go:88-121 | the matched pods of a resource are, in order, the scheduled pods it selects |
| `Covering.CoveredPodsMean` | pkg/controller/reconciler/coverage.go:123-161 | the covered pods of a resource are, in order, the scheduled pods it covers |
| `Covering.InConflictMeans` | pkg/controller/reconciler/coverage.go:123-161 | a resource reports exactly the names of the resources of its kind that disagree with it, where both match a scheduled pod and one of them covers it |
| `Covering.CoverPod` | pkg/controller/reconciler/coverage.go:85-165 | what one scheduled pod adds to the status of every resource of both kinds |
| `Covering.ReportConflicts` | pkg/controller/reconciler/coverage.go:133-140 | the winner and each other matching resource that disagrees with it name each other |
| `Covering.AddConflict` | pkg/controller/reconciler/coverage.go:282-289 | adds a name unless it is there |
| `Covering.SpecsExact` | pkg/controller/reconciler/coverage.go:83-172 | with unique UIDs the dispatched specs are exactly `ComputeSpec`'s answers for the scheduled pods |
| `Covering.OneOwner` | pkg/controller/reconciler/coverage.go:123-161 | a matched scheduled pod is among the covered pods of exactly one resource, which matches it |
| `Covering.CoveredIffMatched` | pkg/controller/reconciler/coverage.go:123-161 | a pod is covered if and only if something matches it |
| `Covering.ConflictSymmetric` | pkg/controller/reconciler/coverage.go:133-160 | one resource reports a conflict with another if and only if the other reports one with it |
| `Covering.NoConflictSameWire` | pkg/controller/reconciler/coverage.go:123-161 | if a resource reports no conflict, every resource of its kind that matches a pod it covers would have given the same protocol bits and port list |
| `Covering.CoverageOrderFree` | pkg/controller/reconciler/coverage.go:73-172 | specs and covered pods do not depend on the order of the resources |
| `Covering.ConflictOrderFree` | pkg/controller/reconciler/coverage.go:73-172 | conflicts do not depend on the order of the resources |
| `Wire.VarintRoundTrip` | opentelemetry/cmd/opentelemetry-sink/pb/file.go:33-40 | every 64-bit value is read back from its varint, whatever follows |
| `Wire.Marshal` | opentelemetry/cmd/opentelemetry-sink/pb/file.go:27-45 | the bytes decode to the object type that was encoded, whatever the decoder's object held before |
| `Wire.Unmarshal` | opentelemetry/cmd/opentelemetry-sink/pb/file.go:47-87 | the loop over fields, with unknown and cut fields as the code treats them |
| `Wire.UnmarshalFields` | opentelemetry/cmd/opentelemetry-sink/pb/file.go:47-87 | fields in any order and number: the last of each kind counts, with codes cut to 32 bits, and what follows is read with that |
| `Wire.UnmarshalEnds` | opentelemetry/cmd/opentelemetry-sink/pb/file.go:80-84 | the end of the data, or a field of another number or wire type, ends the decoding |
| `Wire.LongNamePanics` | opentelemetry/cmd/opentelemetry-sink/pb/file.go:70-79 | a name longer than the rest of the data is a panic |
| `Wire.BadValueSkipped` | opentelemetry/cmd/opentelemetry-sink/pb/file.go:58-76 | a value that is cut off or too large is passed over, and its bytes are read as further fields |
| `Wire.ObjectTypeRoundTrip` | opentelemetry/cmd/opentelemetry-sink/pb/file.go:27-87 | every code and name survives encoding and decoding |
| `ShardFormat.ParseShard` | opentelemetry/pkg/compactor/compactor.go:429-502 | header checks, frames until the data ends, checksum errors, in-band declarations and unknown codes skipped |
| `ShardFormat.ShardRoundTrip` | opentelemetry/cmd/opentelemetry-sink/writer.go:173-203 | the bytes of a self-contained record sequence parse to exactly its messages, in order |
| `ShardFormat.TruncatedShard` | opentelemetry/pkg/compactor/compactor.go:429-502 | cut at any length from 16 bytes on, a shard parses to the messages of the records that lie wholly before the cut |
| `ShardFormat.TooShortShard` | opentelemetry/pkg/compactor/compactor.go:430-441 | an empty file parses to nothing, one to fifteen bytes are an error |
| `ShardFormat.HeaderChecked` | opentelemetry/pkg/compactor/compactor.go:439-446 | another magic number or a later version is an error; any other header is passed over |
| `ShardFormat.BadChecksumFails` | opentelemetry/pkg/compactor/compactor.go:472-474 | a frame with a wrong checksum makes the shard an error, whatever precedes and follows it |
| `ShardFormat.UndecodableFails` | opentelemetry/pkg/compactor/compactor.go:494-496 | so does a message of a known type that cannot be decoded |
| `ShardFormat.UnknownSkipped` | opentelemetry/pkg/compactor/compactor.go:484-492 | a message of an undeclared code or an unknown type is passed over |
| `ShardFormat.ReadsBackIff` | opentelemetry/pkg/compactor/compactor.go:429-502 | a shard in which no record is misread parses to all the messages written to it, if and only if every message's code is declared before it |
| `ShardWriter.StepKeeps` | opentelemetry/cmd/opentelemetry-sink/writer.go:148-210 | every step of rotation and of any number of writers, failing writes included, keeps codes injective, below the next code, and declared only as they are |
| `ShardWriter.CodesNeverChange` | opentelemetry/cmd/opentelemetry-sink/writer.go:401-423 | a type's code is never reassigned |
| `ShardWriter.AppendReadableIff` | opentelemetry/cmd/opentelemetry-sink/writer.go:386-429 | appending a message leaves its shard readable if and only if the type's first `codeForType` has returned or a rotation has declared it since |
| `ShardWriter.PatientIffReadable` | opentelemetry/cmd/opentelemetry-sink/writer.go:386-429 | any number of writers leave every shard self-contained if and only if the run appends only announced types |
| `ShardWriter.ReadBackIffPatient` | opentelemetry/cmd/opentelemetry-sink/writer.go:386-429 | in the reader's terms: for any number of writers, any rotations and any failed writes, every shard parses to exactly the messages written to it, if and only if no message was appended before its type was announced |
| `ShardWriter.ReadBackIffCareful` | opentelemetry/cmd/opentelemetry-sink/writer.go:386-429 | with one writer, if and only if no message was appended whose type's declaration had failed without a rotation since |
| `ShardWriter.FailedDeclarationLosesARecord` | opentelemetry/cmd/opentelemetry-sink/writer.go:412-420 | a run of one writer in which the declaration of a type fails and its next record is unreadable |
| `ShardWriter.NoObjectUnreadable` | opentelemetry/cmd/opentelemetry-sink/writer.go:148-210 | with one writer that appends no type whose declaration failed, and any rotations, the shards together parse to every written message in order, and each shard cut anywhere from the header on to a prefix of its own |
| `ShardWriter.TwoWritersLoseARecord` | opentelemetry/cmd/opentelemetry-sink/writer.go:401-423 | a concrete run of two writers in which a record precedes the declaration of its code |
| `ShardWriter.SkippedRecord` | opentelemetry/pkg/compactor/compactor.go:484-487 | a reader skips such a record without an error |
| `ShardWriter.Writer.RotateShard` | opentelemetry/cmd/opentelemetry-sink/writer.go:148-210 | a new shard that declares the reserved code and every known type, in any map order, and leaves the others as readable as they were |
| `ShardWriter.Writer.CodeForType` | opentelemetry/cmd/opentelemetry-sink/writer.go:401-423 | the known code, or the next one, published and then declared; if that fails an error, with the code published |
| `ShardWriter.Writer.WriteObject` | opentelemetry/cmd/opentelemetry-sink/writer.go:386-399 | appends the object unless a write fails; the shards stay readable if and only if they were and no object is appended whose type's declaration has failed |
| `Compaction.StepKeeps` | opentelemetry/pkg/compactor/compactor.go:112-347 | uploads, part writes, markers and a stop at any moment keep the invariant on copies, partitions and part keys |
| `Compaction.CompactedOnce` | opentelemetry/pkg/compactor/compactor.go:157-343 | over every sequence of runs that may stop anywhere: each row of a marked parseable shard is in a part of its own signal whose hour contains its time; no row is stored more than 1 + (stopped runs that selected its shard) times; no part overwrites another |
| `Compaction.SamePartitionIff` | opentelemetry/pkg/compactor/compactor.go:245-267 | two rows share a partition if and only if they have the same signal and lie in the same hour |
| `Compaction.BucketSnoc` | opentelemetry/pkg/compactor/compactor.go:410-419 | a new part's key is new, and the rest of the plan keeps away from it |
| `CompactionRun.FillPart` | opentelemetry/pkg/compactor/compactor.go:381-399 | the first multiple of 5000 rows at which the file has reached its limit, or all the rows |
| `CompactionRun.SplitParts` | opentelemetry/pkg/compactor/compactor.go:350-426 | terminates; the parts concatenate to the rows, none is empty, and each but the last ends at the limit and not later than it should |
| `CompactionRun.GroupRows` | opentelemetry/pkg/compactor/compactor.go:245-267 | every partition gets exactly the rows of its signal and hour, in order |
| `CompactionRun.InPartitionMeans` | opentelemetry/pkg/compactor/compactor.go:245-267 | the group of a partition is made of the rows within its hour bounds and of its signal, at increasing places |
| `CompactionRun.PlanPartition` | opentelemetry/pkg/compactor/compactor.go:269-331 | the parts of one partition, in order, are its rows as the library sorts them, in slots numbered from zero |
| `CompactionRun.PlanRun` | opentelemetry/pkg/compactor/compactor.go:244-331 | grouping, sorting and splitting together give each row once, to its own partition, under slots that do not repeat |
| `CompactionRun.SelectKeys` | opentelemetry/pkg/compactor/compactor.go:157-197 | settled shards without a marker, in order, at most the limit; all of them if there are fewer, and otherwise the first by name |
| `CompactionRun.CollectRows` | opentelemetry/pkg/compactor/compactor.go:207-236 | the rows of the parseable shards; the others are skipped |
| `CompactionRun.Archive.Compact` | opentelemetry/pkg/compactor/compactor.go:199-346 | a run that may stop after any number of bucket writes keeps the invariant, marks every selected shard if it succeeds, and only selected ones in any case |
| `Retention.StepKeeps` | opentelemetry/cmd/opentelemetry-sink/writer.go:148-210 | rotation, upload tasks, cleanup and restart keep every closed shard on disk or archived, in every interleaving of their steps |
| `Retention.NothingLost` | opentelemetry/cmd/opentelemetry-sink/writer.go:252-384 | in every reachable state each closed shard's bytes are on disk or in the archive; the open shard is on disk, not archived and never the one about to be removed, even when the cleanup's snapshot of it is stale; cached sizes are true |
| `Retention.StepMonotone` | opentelemetry/pkg/store/archive.go:105-134 | a closed shard's bytes never change, and what is archived stays archived |
| `Retention.ArchiveBucket.Upload` | opentelemetry/pkg/store/archive.go:105-134 | success means an object of the file's size, and the file itself unless one of that size was there; cached sizes stay true if and only if the upload is not one that is reported as failed after replacing an object of another, remembered size |
| `Retention.ArchiveBucket.IsUploaded` | opentelemetry/pkg/store/archive.go:137-143 | an answer just if the file is there and the object's size is cached or can be asked for, and then whether it is the file's size |
| `Retention.ArchiveBucket.CheckUploaded` | opentelemetry/pkg/store/archive.go:145-163 | an answer just if the object's size is cached or can be asked for, and then whether it is the expected one; the size is then cached |
| `Retention.LocalStore.RunRetentionCleanup` | opentelemetry/cmd/opentelemetry-sink/writer.go:323-384 | removes exactly the shards that are not the current one, have expired, and whose archived object has their size, as far as the cache or the bucket tells |
| `Retention.EveryShardUploads` | opentelemetry/cmd/opentelemetry-sink/writer.go:243-320 | in every reachable state, after any failures and restarts, a closed shard is archived or an upload task for it is there |
| `Retention.UploadCompletes` | opentelemetry/cmd/opentelemetry-sink/writer.go:286-309 | from every state, a task that nothing goes wrong with archives its shard byte for byte and ends, changing nothing else but the cache |
| `Retention.VisitDooms` | opentelemetry/cmd/opentelemetry-sink/writer.go:345-378 | the cleanup dooms a shard if and only if it is not the current one, has expired and is archived with its size, as far as it can tell |
| `Retention.WritesAppend` | opentelemetry/cmd/opentelemetry-sink/writer.go:424-444 | writes append to the open shard and change nothing else |
| `Labels.PromName` | cmd/ollie/forward.go:244-258 | character by character: legal ones are kept and all others become underscores |
| `Labels.AllowedLabels` | cmd/ollie/forward.go:263-283 | the allowed keys in sorted order, renamed, with their values; and each of the other keys once, as dropped |
| `Labels.UnionKeys` | cmd/ollie/forward.go:286-306 | exactly the keys of both; sorted and free of duplicates if and only if both inputs are |
| `Labels.MergeSortedIff` | cmd/ollie/forward.go:286-306 | the merge is sorted and free of duplicates if and only if both inputs are |
| `Labels.SchemaSortedIff` | cmd/ollie/forward.go:124-146 | however often it is widened, the schema of a name is sorted and free of duplicates if and only if the keys of every event for the name were |
| `Labels.CoerceToSchema` | cmd/ollie/forward.go:339-353 | the labels aligned on the schema, with the empty value for absent keys |
| `Labels.LabelsOfAlign` | cmd/ollie/forward.go:339-353 | reading labels off their own alignment gives them back |
| `Labels.AlignOfLabels` | cmd/ollie/forward.go:339-353 | aligning the labels that a full list of values stands for gives the values back |
| `Labels.RenamingCanUnsort` | cmd/ollie/forward.go:275-281 | two allowed keys that change order when renamed |
| `Labels.WideningCanDuplicate` | cmd/ollie/forward.go:286-306 | a schema in the wrong order is widened to one with a key twice |
| `Collector.ObiCollector.RekeySeries` | cmd/ollie/forward.go:314-334 | moving the series of a name to a wider schema merges, splits and loses none: the collector still represents the same model |
| `Collector.ObiCollector.Record` | cmd/ollie/forward.go:110-195 | the collector goes on representing a plain map keyed by name and non-empty labels, updated with the event; all series of a name share one sorted, duplicate-free key list |
| `Collector.ObiCollector.Collect` | cmd/ollie/forward.go:202-240 | evicts exactly the series not seen for ten minutes and emits one metric for each of the others that has a name, in any order, with every label paired with its value |
| `Collector.IdentMeans` | cmd/ollie/forward.go:119-130 | the series of an event: its name in Prometheus form and its non-empty attributes on the allowlist, renamed |
| `Collector.Replay` | cmd/ollie/forward.go:110-240 | for every sequence of Record and Collect the collector represents the plain map |
| `Collector.PlaceInjective` | cmd/ollie/forward.go:152-152 | two series with one map key are the same series, if the values of one of them are free of NUL |
| `Collector.PlaceAloneIff` | cmd/ollie/forward.go:152-152 | a series shares its map key with no other series over the same keys, if and only if there is at most one key or none of its values contains NUL |
| `Collector.NulMergesSeries` | cmd/ollie/forward.go:152-152 | for every name and all texts: two events with the allowed keys `direction` and `http.route` whose different series share a map key, because of a NUL in a value |
| `Collector.AcceptedIff` | cmd/ollie/forward.go:211-238 | the client library accepts a stored series if and only if its name is not empty |
| `Histograms.Accumulates` | cmd/ollie/forward.go:163-182 | the state of a series is the total of the events since its last reset, counts being modulo 2^64 |
| `Histograms.Expose` | cmd/ollie/forward.go:222-234 | the cumulative buckets by bound |
| `Histograms.Flatten` | internal/store/ingest.go:212-234 | one sample per bucket, `+Inf`, sum and count, with counts rounded to `float64` |
| `Histograms.ScrapeShows` | internal/store/ingest.go:205-234 | for any run of well-formed events: each bucket shows the total at or below its bound since the last reset, and `+Inf` and the count the number of observations, all modulo 2^64 and rounded, with the sum |
| `Histograms.ScrapeProper` | internal/store/ingest.go:205-234 | as long as fewer than 2^64 observations were made since the last reset, buckets never decrease and `+Inf` equals the count |
| `Histograms.ScrapeFaithfulIff` | internal/store/ingest.go:205-234 | the samples are the totals themselves if and only if the number of observations since the last reset is below 2^64 and each of the totals is representable in 53 significant bits |
| `Histograms.ScrapeFaithful` | internal/store/ingest.go:205-234 | so up to 2^53 observations are shown exactly |
| `Histograms.RoundingLosesOne` | internal/store/ingest.go:229-232 | 2^53 + 1 observations in one event are shown as 2^53 |
| `Double.RoundedNearest` | internal/store/ingest.go:218-231 | the conversion gives a representable number, and none is nearer |
| `Double.RoundedTies` | internal/store/ingest.go:218-231 | half way between two it gives the one whose last bit is 0 |
| `Double.RoundedExactIff` | internal/store/ingest.go:218-231 | it leaves a number as it is if and only if that is representable |
| `Double.RoundedMonotone` | internal/store/ingest.go:218-231 | it keeps order |
| `Histograms.SeriesIsHistory` | cmd/ollie/forward.go:110-240 | for every sequence of Record and Collect and every series: it is there just if it has had events since its last eviction, and is what these make of a new series |
| `Histograms.CollectedShows` | cmd/ollie/forward.go:202-240 | so what a scrape after any such sequence shows of a series are the totals of its events since its last eviction and reset |
| `Histograms.CollectedValue` | cmd/ollie/forward.go:183-194 | what it shows of a counter or gauge: the value last set since the eviction, or zero, with all delta values counted since, under the kind of the last event |
| `Histograms.ValueSinceSet` | cmd/ollie/forward.go:183-194 | after any events, the value is that of the last one that set it plus the monotonic deltas since; cumulative sums, gauges and non-monotonic sums set it |
| `Histograms.ValueFromZero` | cmd/ollie/forward.go:183-194 | and the sum of all monotonic deltas if none has set it |
| `Histograms.OthersLeaveHistogram` | cmd/ollie/forward.go:163-194 | events of other kinds leave the histogram of a series alone |
| `SpanRing.SpanBuffer.constructor` | internal/store/spanring.go:68-89 | capacity as given, 65536 by default |
| `SpanRing.SpanBuffer.Len` | internal/store/spanring.go:92-99 | the smaller of spans appended and capacity |
| `SpanRing.SpanBuffer.Push` | internal/store/spanring.go:115-125 | the ring holds the last spans of the log, as many as fit |
| `SpanRing.SpanBuffer.Range` | internal/store/spanring.go:164-188 | of the last spans, oldest first, those within the interval, cut at the limit if it is positive |
| `SpanRing.WithinMeans` | internal/store/spanring.go:176-182 | the spans within an interval are, in order, those that start neither before nor after it |
| `SpanRing.SpanBuffer.Append` | internal/store/spanring.go:115-160 | the ring takes the span, and so does the stream of every subscriber, each of which keeps the delivery invariant |
| `SpanRing.SpanBuffer.Subscribe` | internal/store/spanring.go:194-201 | a new, empty, open channel, of size 1024 by default |
| `SpanRing.SpanBuffer.Cancel` | internal/store/spanring.go:203-213 | the channel is closed and no longer delivered to |
| `LiveTail.StepKeeps` | internal/store/spanring.go:130-159 | every step of a delivery, a receive, a filter decision and a cancel keeps the delivery invariant |
| `LiveTail.Conservation` | internal/store/spanring.go:115-160 | in every state of every interleaving: spans appended since subscribing = sent + filtered out + gaps sent + carried gap + sum of (1 + gap) over deliveries in hand, queued and under way |
| `LiveTail.EventsReport` | internal/streamsvc/agent.go:62-109 | in every state of every interleaving: each event carries the gap of its delivery and everything lost since the event before it, and what was lost since the last one is carried |
| `LiveTail.ToldByEvent` | internal/streamsvc/agent.go:55-109 | so up to each event the client knows of every span: it was sent, filtered out, or is in a gap sent so far |
| `LiveTail.FreshestKept` | internal/store/spanring.go:126-160 | the queue is an unbroken stretch of the stream up to the newest span, deliveries are received in order, the newest span is queued or received once a delivery is done, the last send always finds room, and none hits a closed channel |
| `LiveTail.GapSinceLastIff` | internal/store/spanring.go:38-44 | a gap counts the spans lost since the delivery before it, in every run, if and only if the channel holds a single delivery |
| `LiveTail.GapComesLate` | internal/store/spanring.go:140-151 | for every larger channel, a run in which the delivery behind a lost span carries no gap |
| `LiveTail.SubscribeSpans` | internal/streamsvc/agent.go:62-109 | the events are the matching spans in order, each with the gap of its delivery and everything lost since the event before it; what was lost since the last event is carried; it ends early just if a span matches that the client no longer takes |
| `LiveTail.Subscriber.Deliver` | internal/store/spanring.go:130-159 | with receives at any moment, the span ends up last in the queue and the delivery invariant holds |
| `Glob.GlobMatch` | opentelemetry/cmd/opentelemetry-sink/writer.go:697-717 | true if and only if the value is the pattern with some text at each star |
| `Glob.MatchesByPieces` | opentelemetry/cmd/opentelemetry-sink/writer.go:701-701 | matching a pattern is placing its literal pieces in order |
| `Glob.LeftmostIsSafe` | opentelemetry/cmd/opentelemetry-sink/writer.go:709-715 | placing a piece at its leftmost occurrence never loses a match (the exchange argument) |
| `Glob.GreedyStep` | opentelemetry/cmd/opentelemetry-sink/writer.go:709-715 | so the greedy choice decides the match |
| `LogSearch.DistributedTopK` | opentelemetry/pkg/queryserver/server.go:233-277 | for a limit that fits 32 bits, cutting at every sink and again after the merge shows the timestamps of one sort over all matches |
| `LogSearch.LimitLostOnTheWire` | opentelemetry/pkg/queryserver/server.go:254-254 | any other limit whose 32-bit remainder is positive loses a match: the condition is exact |
| `LogSearch.MatchesMean` | opentelemetry/cmd/opentelemetry-sink/writer.go:884-956 | the matches of a shard are, in order, exactly its records within the interval that the filters accept |
| `LogSearch.PruningIff` | opentelemetry/cmd/opentelemetry-sink/writer.go:786-809 | pruning changes the matches of a sink if and only if a skipped shard held one |
| `LogSearch.PruningExactIff` | opentelemetry/cmd/opentelemetry-sink/writer.go:786-809 | pruning loses nothing for any filter and any interval whose end is not within five minutes of the largest `int64`, if and only if each record that such an interval can contain lies within five minutes of its shard's interval |
| `LogSearch.PruningIsSafe` | opentelemetry/cmd/opentelemetry-sink/writer.go:786-809 | it changes nothing when each record lies within five minutes of its shard's interval and the end is not that late |
| `LogSearch.LateEndKeepsNothing` | opentelemetry/cmd/opentelemetry-sink/writer.go:792-797 | with an end that late the 64-bit sum wraps around and every shard is skipped |
| `LogSearch.LateEndLosesARecord` | opentelemetry/cmd/opentelemetry-sink/writer.go:792-797 | so a record at the start of its own shard is lost to a query up to the last moment |
| `LogSearch.PruningByEndIff` | opentelemetry/cmd/opentelemetry-sink/writer.go:786-809 | with records near their shard's interval, pruning changes nothing if and only if the end is not that late or nothing matches |
| `LogSearch.CollectMatches` | opentelemetry/cmd/opentelemetry-sink/writer.go:791-956 | in order, exactly the records that the query asks for of the shards that are not skipped; and of all shards, if records are near their shard's interval and the end is not late |
| `LogSearch.SearchEndToEnd` | opentelemetry/pkg/queryserver/server.go:341-347 | unless the end is late, pruning, cutting and merging together show the timestamps of one sort over the records that the query asks for, each as often as the responding sinks hold it |
| `LogSearch.SearchExactIff` | opentelemetry/pkg/queryserver/server.go:233-347 | they do so if and only if the end is not late or nothing matches anywhere |
| `Selector.PromMatchers` | internal/custommetrics/custommetrics.go:377-416 | refuses if and only if some key is no label name or some operator is numeric; else one matcher per requirement |
| `Selector.LegalNameIff` | internal/custommetrics/custommetrics.go:387-389 | a key is a label name if and only if it is not empty, renaming leaves it as it is, and it has no colon |
| `Selector.AlternationReadsBack` | internal/custommetrics/custommetrics.go:397-406 | the quoted alternation stands for exactly the listed values, whatever characters they contain |
| `Selector.FaithfulIff` | internal/custommetrics/custommetrics.go:393-412 | on series without empty labels a requirement and its matcher select the same, if and only if no empty value is asked for |
| `Selector.SelectorFaithful` | internal/custommetrics/custommetrics.go:377-416 | a selector without empty values matches exactly the series its matchers select, absent labels and negation included |
| `Selector.EmptyValueMisread` | internal/custommetrics/custommetrics.go:394-395 | a concrete selector with an empty value, and a series on which the two differ |
| `Reload.StepKeeps` | pkg/capture/bridge.go:352-409 | every step of mutators, signals and coalescer keeps: what is not on disk is announced or owed |
| `Reload.NoLostReload` | pkg/capture/bridge.go:252-304 | in every reachable state, a file that differs from the rendering of the tracked pods and PIDs has a mutator yet to signal, a token pending, or a write owed; or the last write failed, or the coalescer has ended |
| `Reload.CatchesUp` | pkg/capture/bridge.go:362-409 | once mutators have signalled, the coalescer's own steps bring the file up to date from wherever it is |
| `Reload.FailedWriteIsForgotten` | pkg/capture/bridge.go:395-410 | a concrete run after which a failed write leaves the file out of date with nothing under way |
| `Reload.QuietStays` | pkg/capture/bridge.go:352-410 | when nothing is under way, every run without a change of what is tracked leaves the file as it is |
| `Reload.RepairNeedsChange` | pkg/capture/bridge.go:352-410 | so a file that is out of date then is up to date again only after a change |
| `Reload.ChangeRepairs` | pkg/capture/bridge.go:352-410 | and any change brings it up to date, by the mutator's signal and the coalescer's steps |
| `Reload.BridgeManager.AllowPod` | pkg/capture/bridge.go:282-291 | refuses an empty UID; else tracks the pod and leaves a token if the file is out of date |
| `Reload.BridgeManager.BlockPod` | pkg/capture/bridge.go:294-304 | stops tracking the pod, likewise |
| `Reload.BridgeManager.AllowPid` | pkg/capture/bridge.go:252-261 | tracks the PID, likewise |
| `Reload.BridgeManager.BlockPid` | pkg/capture/bridge.go:264-275 | stops tracking the PID, likewise |
| `Reload.BridgeManager.BuildConfig` | pkg/capture/bridge.go:418-459 | a rendering of what is tracked: PIDs in any order, pods by UID, or the seed entry when nothing is tracked |
| `Reload.RendersMeans` | pkg/capture/bridge.go:418-459 | what such a file says, entry by entry: PID, or pod name, namespace and ports, under a name made of the PID or the first twelve characters of the UID |
| `Reload.PortListReadsBack` | pkg/capture/bridge.go:473-482 | a reader of the comma-separated port text gets the ports, in order |
| `Reload.BridgeManager.Coalesce` | pkg/capture/bridge.go:395-410 | the file shows what is tracked, and is written only if it changes |
| `Lifecycle.StepKeeps` | pkg/capture/bridge.go:153-247 | every step of Start, Stop, the coalescer and the emitters keeps the invariant on flags, places, closes and the receiver |
| `Lifecycle.ChannelsSafe` | pkg/capture/recover.go:33-112 | in every interleaving of Start, Stop, handlers, panic recovery and restart reports no channel is closed twice and whoever may send on the events channel finds it open |
| `Lifecycle.StoppedIsQuiet` | pkg/capture/bridge.go:204-232 | when Stop has returned, no emitter and no Start is under way and the coalescer has ended, and it ends no sooner than Stop is called |
| `Lifecycle.ReceiverLeftIff` | pkg/capture/bridge.go:204-232 | Stop leaves the receiver running if and only if it was called after Start had set its flag and before it had published the receiver, and Start then succeeded |
| `Lifecycle.ReceiverLeft` | pkg/capture/bridge.go:153-232 | a run in which it does |
| `Lifecycle.NeverStuck` | pkg/capture/bridge.go:211-232 | whatever Stop is waiting for, some step can be taken |
| `Lifecycle.StopReturns` | pkg/capture/bridge.go:211-232 | after Stop is called only so many steps can follow, and when no more can it has returned |

## Left out

- Command mains, flags, HTTP and gRPC plumbing, discovery, certificates and authentication: wiring, or code that is not
  part of this model.
- Protocol Buffers payloads, Parquet files, PromQL, CEL, the tsdb and checksums: library code, represented by parameters.
- Clocks, timers, backoff and file sizes: parameters and nondeterministic steps.
- Errors of the local file system while rotating or reading a shard; a write that fails leaves nothing of its frame.
- Legacy version-0 shards, and `ObjectType` bytes that no writer produces beyond what `Wire.Unmarshal` says of them.
- Go strings are sequences of characters here and names on the wire sequences of bytes; UTF-8 is not modelled.
- Sums, gauges and bucket bounds are `real`, without the rounding of `float64`, and bounds are shown by value, not by
  their decimal form; counts are rounded as in the code.
- Summaries, counters and gauges in `Flatten`, and the ingester's staleness markers: one line each.
- Node stamping, label allowlist entries and metric translation: tables.
- The sink's `Query`, matching of resources and attributes other than globs, and result rendering.
- `AgentLocalDigest`, heartbeats and status reports of agents: the controller does not use them for deltas.
- Module enabling in the bridge, and the restart counter: they do not change the config or the channels.
- Dispatcher.Dispatcher.Apply: nothing is received during a call of the method; receives in the midst of it are in
  `ControlPlane`, whose steps are its loops' passes.
- Lifecycle.StepKeeps: `Start` and `Stop` are steps of a transition system and not methods, since both wait for others.
- Retention.StepKeeps: upload tasks and the cleanup are steps; the methods of `ArchiveBucket` and `LocalStore` are the
  same operations without interference.
- Retention.EveryShardUploads: the upload queue takes every task; it refuses them once the sink is closing, which here is a
  restart.
- Compaction.CompactedOnce: counts copies of rows named by shard and position, not equal rows of different shards.
- CompactionRun.GroupRows: the three loops for logs, traces and metrics are one, with the signal as part of the row.
- Selector.PromMatchers: gives the matchers, not their text; Go's `%q` and PromQL's reading of it are library code.
- Selector.SelectorFaithful: one direction only for a whole selector, since a conjunction can hide a misread requirement.
- Collector.ObiCollector.Record: asks that the event's allowed keys are in order after renaming and their values free of
  NUL, since the collector stands for no map of series otherwise; `Labels.SchemaSortedIff` and `Collector.PlaceAloneIff`
  say exactly when that is.
- Collector.Replay: asks the same of every event.
- Histograms.ScrapeFaithfulIff: for histogram events as OpenTelemetry defines them (ascending bounds, one more bucket than
  bounds, a count that is their sum); others are stored as they come, and nothing is said of them.
- LogSearch.DistributedTopK: compares timestamps, since equal timestamps may be cut differently.
