# Verified models of the event processor's small protocols

A Dafny project beside the ad event processor. It models seven pieces of it whose correctness depends
on order, retries or exact arithmetic, and proves what they keep over every run:

- **Broker partition worker** (`broker_*.dfy`): fetch, parse, batch, store, then commit the offset
  locally and by RPC; any step can fail or be the last before a crash. `broker_protocol.dfy` is the
  transition system, `broker_theorems.dfy` and `broker_resume.dfy` its laws, `broker_worker.dfy` the
  worker as a class that takes only steps of the protocol.
- **Probe shutdown** (`probe_*.dfy`, `otel_queue.dfy`): `stop`, the ring drain and the OTEL loop as an
  interleaving of single actions, and the object whose methods take those actions.
- **Automation rules** (`automation_*.dfy`): which actions a rule may have and which of them a match
  carries out; evaluation of one rule, the action hash, workers racing for fire rows, and the tick loop
  with its due times, cap and cooldown; `automation_theorems.dfy` says in the terms of its inputs what a
  tick does.
- **Role store** (`access_*.dfy`): compile, validate, write, apply. `access_protocol.dfy` and
  `access_runs.dfy` state the protocol over any reading of files; `access_document.dfy` proves that
  the YAML documents are such a reading; `access_store.dfy` is the store as a class;
  `access_oversize.dfy` holds one failing request.
- **Ledger export** (`ledger_*.dfy`): pages, the decimal cursor, both paging loops, the job record.
- **Dead-letter archive** (`dlq_*.dfy`): the file format and its buffered reader, archiving as a
  transition system with crashes and as a class that takes its steps, restoring, editing;
  `dlq_history.dfy` puts any runs of it, also interrupted ones, one behind the other.
- **Overdraft arithmetic** (`overdraft.dfy`).

`surroundings.dfy` holds the choices the program does not make, `machine_integers.dfy` 64-bit
wrap-around, `sequences.dfy` and `options.dfy` what several models share.

## Where the code does less than it promises

Each of these is proved, with the exact condition under which the promise holds.

- In shadow mode a commit can pass events that were only counted
  (`BrokerTheorems.AtLeastOnceIffNotShadow`). The comment at
  `cmd/processor/broker_consumer.go:147` says that shutdown flushes a partial batch at a guessed offset; the
  batch is always empty there (`BrokerTheorems.DrainHasNothingToFlush`).
- A ring reader is closed under a live context when `events.ndjson` does not open
  (`ProbeTheorems.ClosedWithoutCancel`); there is then no loop that could spin.
- The size of the roles file is checked when it is read and when a request arrives, not when it is
  written. An apply whose printed document exceeds 256 KiB takes effect but cannot be loaded again
  (`AccessProtocol.OversizedApplyDoesNotReload`; `AccessOversize.OversizedRequestExists` has the
  request), and after a restart neither revisions nor removed roles are checked
  (`AccessRuns.OversizedRestartForgets`), although `internal/access/doc.go:12` says that role A cannot be
  deleted.
- At revision 2^63-1 the revision wraps and the expected revision is no longer looked at
  (`AccessProtocol.RevisionGrowsIff`, `AccessProtocol.WrappedRevisionDropsTheGuard`); a document may
  ask for that revision (`AccessProtocol.LargestRevisionIsReached`).
- `restoreDLQ` reads a length prefix with a plain `Read`, which returns what is left in the 4096-byte
  buffer. An archive is restored exactly when no prefix is cut (`DlqFrames.RestoreIff`); for records
  below 4096 bytes, when no prefix begins in the last three bytes of a block
  (`DlqFrames.SmallRestoreIff`).
- `archiveDLQ` deletes messages from the stream while their records may still be in the writer's
  memory, and drops the error of the last flush. A message can then be in neither place, after a crash
  (`DlqProtocol.CrashLosesAMessage`) or after success (`DlqProtocol.SuccessLosesAMessage`); exactly when,
  say `DlqProtocol.CrashLosesIff` and `DlqProtocol.SuccessKeepsIff`.
- A run that is interrupted can leave part of a record in the file, and the next run appends behind it.
  Its messages are archived, deleted and counted as kept, but need not come back
  (`DlqHistory.TornFrameHidesTheNext`). Over any sequence of runs the file restores to the records that
  lie whole in it exactly when each run left it at the end of a record
  (`DlqHistory.RestoresIffClean`; after a run that succeeded, `DlqHistory.SuccessRestoresIff`).
- A rule may have two actions of one type, such as two notifications with different webhooks. Only the
  type is hashed, so the second is passed over without an error
  (`AutomationMatch.SecondWebhookIsNotCalled`). Without errors every action of a match is carried out
  exactly when no two have one type and no fire row was there (`AutomationMatch.AllCarriedOutIff`).
- A process that dies between storing a batch and committing it makes the next one store the batch again
  (`BrokerResume.CrashStoresTwice`); without that, and if the other reasons for storing twice are absent,
  every event is stored once (`BrokerResume.ExactlyOnce`).
- Editing a dead-letter event without changing it can change it (`DlqEdit.EditIdentityIff`).
- The first product of the overdraft can overflow and make the amount negative
  (`Overdraft.OverflowGivesNegative`); up to which top-ups the amount can be trusted is exactly where
  that product fits (`Overdraft.TrustedIff`). The amount falls with age if the mature percentage is the
  smaller one (`Overdraft.MonotoneInAgeIff`).

## Assumptions

Fetch yields consecutive offsets from `start`, and the local tracker keeps the larger offset. A failed
`StoreBatch` may have stored any part. The fire table inserts if absent; SHA-256 does not collide
(only `AutomationFires.SuppressedIffSameType`, `AutomationMatch` and `AutomationTheorems` use this); UUIDs
print in 36 characters and window ends in 20. The stats query returns distinct (campaign, placement)
keys. Within a tick the clock does not run backwards; cooldowns are not negative. Rates and ages are
reals, times are integers. A rename is atomic; a write that fails damages only the file it writes. A
printed YAML document, protocol buffer or UUID parses back to itself. A document with a 64-bit revision
can be printed; a list of plain words can be written in flow style with a byte around each, and is
printed in block style with three (only `AccessOversize` uses this). Ledger ids are positive and new
rows get larger ones. A read of a regular file returns all that was asked for and is there. Text
functions are those of ASCII.

A ghost result `trouble` says whether a call outside the model reported an error, or a cancellation was
seen, during a method; it is how contracts say that nothing else makes the method fail.

## Model

| member | source | states |
|---|---|---|
| BrokerLog.EventsInMembers | cmd/processor/broker_consumer.go:166-182 | An event is among those of an offset range exactly when it was parsed from a record in it |
| BrokerLog.EventsInOrdered | cmd/processor/broker_consumer.go:166-182 | Events come in log order, none twice |
| BrokerTheorems.RunInvariant | cmd/processor/broker_consumer.go:120-267 | Every reachable state, after any crashes and restarts, satisfies the protocol's invariant |
| BrokerTheorems.CommittedIsStored | cmd/processor/broker_consumer.go:129-140 | Whatever is committed locally or remotely has been stored; no resume point skips an event that was not |
| BrokerTheorems.AtLeastOnceIffNotShadow | cmd/processor/broker_consumer.go:203-234 | At-least-once delivery holds on all logs and runs exactly when the worker is not in shadow mode |
| BrokerTheorems.ShadowLosesAnEvent | cmd/processor/broker_consumer.go:203-206 | A run in shadow mode that commits past an event it never stored |
| BrokerTheorems.BatchingRefinesRecordByRecord | cmd/processor/broker_consumer.go:142-220 | The stored batches of one incarnation are the events between boot and start, in order, once each, for any batch size and flush timing |
| BrokerTheorems.PooledUpToStart | cmd/processor/broker_consumer.go:222-251 | In either mode the events given back to the pool are those between boot and start |
| BrokerTheorems.DrainHasNothingToFlush | cmd/processor/broker_consumer.go:146-150 | The batch is empty at every loop head, so shutdown changes nothing durable |
| BrokerTheorems.CommitsIncrease | cmd/processor/broker_consumer.go:184-206 | Offsets handed to commitOffset increase within an incarnation; records since the last one held no event |
| BrokerTheorems.EventsHaveOneOwner | cmd/processor/broker_consumer.go:170-178 | Each event handed over is in exactly one of pool, batch and abandoned batch, and pooled only once stored |
| BrokerTheorems.CatchUp | cmd/processor/broker_consumer.go:120-220 | From every reachable state some continuation stores the whole log |
| BrokerResume.ResumesAtCommit | cmd/processor/broker_consumer.go:129-140 | In every run: an incarnation hands over the records from the tracker's offset on if that was readable and not 0, else from the broker's if readable, else from 0; nothing before, and no gap |
| BrokerResume.ExactlyOnce | cmd/processor/broker_consumer.go:129-260 | If the offset read at a start is the one committed, its commits take effect, failing stores write nothing, and no process dies between storing and committing: every event below the commit is stored once and nothing else is, over any restarts |
| BrokerResume.CrashStoresTwice | cmd/processor/broker_consumer.go:236-250 | A process that dies between the two makes the next one store an event again |
| BrokerResume.BatchesStayBounded | cmd/processor/broker_consumer.go:186-193 | In every state of every run a batch is smaller than the batch size, but for the events of its last record while it is being stored |
| BrokerWorker.Worker.CommitOffset | cmd/processor/broker_consumer.go:253-260 | Local commit, then RPC; the tracker moves to the offset if its commit takes effect and the offset is larger, the broker if its commit takes effect |
| BrokerWorker.Worker.FlushBatch | cmd/processor/broker_consumer.go:222-251 | Success stores the whole batch, returns its events and commits behind it; only a failing store makes it fail, and then it commits nothing and stores some part |
| BrokerWorker.Worker.Drain | cmd/processor/broker_consumer.go:262-267 | Nothing durable changes |
| BrokerWorker.Worker.TakeRecord | cmd/processor/broker_consumer.go:166-193 | One turn of the record loop appends the events of the record, and flushes when the batch is full or the timer is due, and only then |
| BrokerWorker.Worker.FinishRound | cmd/processor/broker_consumer.go:195-206 | The rest of the batch is flushed, or event-free records are committed past, and nothing is committed otherwise |
| BrokerWorker.Worker.Round | cmd/processor/broker_consumer.go:152-206 | Unless the store fails or the worker is told to stop, a round ends behind the last record fetched |
| BrokerWorker.Worker.Boot | cmd/processor/broker_consumer.go:129-143 | Starts at the tracker's offset if that can be read and is not 0; else at the broker's if that can be read; else at 0 |
| BrokerWorker.Worker.Run | cmd/processor/broker_consumer.go:120-220 | Starts there; unless a store fails, store and pool gain exactly the events between there and the end; if nothing is in the way every round that fetches something gets it further |
| OtelQueue.EmitConserves | cmd/bpf-collector/otel_export.go:118-124 | Emitting keeps the rows in order and the queue bounded; a row is dropped exactly if the queue holds 256 |
| OtelQueue.FlushConserves | cmd/bpf-collector/otel_export.go:69-100 | A flush moves the batch to the flushed rows |
| OtelQueue.ReceiveConserves | cmd/bpf-collector/otel_export.go:101-116 | A receive keeps all rows in order; it flushes exactly if it fills a batch of 32, or finds the closed queue empty and a batch to flush |
| OtelQueue.OtelExporter.EmitRow | cmd/bpf-collector/otel_export.go:118-124 | The row is queued and accepted, unless the queue holds 256 |
| OtelQueue.OtelExporter.FlushBatch | cmd/bpf-collector/otel_export.go:69-100 | The batch is sent once and cleared |
| OtelQueue.OtelExporter.Select | cmd/bpf-collector/otel_export.go:101-116 | A tick or the end of a closed queue flushes; a row only joins the batch, unless it makes 32 |
| OtelQueue.OtelExporter.Close | cmd/bpf-collector/otel_export.go:126-132 | When close returns, the flushed rows are exactly the accepted ones, in order |
| ProbeShutdown.RunInvariant | cmd/bpf-collector/main.go:234-285 | Every interleaving of the three goroutines keeps reader ownership, queue order and row conservation |
| ProbeTheorems.ReaderClosedOnce | cmd/bpf-collector/ringbuf.go:39-62 | The ring reader is closed at most once, and once by the time both sides are through |
| ProbeTheorems.ClosedMeansCancelled | cmd/bpf-collector/ringbuf.go:64-86 | In the drain loop a closed reader implies a cancelled context; on a live context it is closed exactly when events.ndjson did not open and the drain is through |
| ProbeTheorems.ClosedWithoutCancel | cmd/bpf-collector/ringbuf.go:66-70 | The one exception: events.ndjson does not open |
| ProbeTheorems.CancelAloneBlocks | cmd/bpf-collector/ringbuf.go:80-86 | Cancelling does not release a drain that waits in Read |
| ProbeTheorems.DrainUnblocked | cmd/bpf-collector/main.go:234-239 | Once stop has run its close step, the drain always has a step of its own until it is finished |
| ProbeTheorems.StepShrinks | cmd/bpf-collector/main.go:234-259 | After cancellation every step of a goroutine lowers a measure |
| ProbeTheorems.NoDeadlock | cmd/bpf-collector/main.go:234-243 | Until stop is through, some goroutine can move |
| ProbeTheorems.ShutdownBounded | cmd/bpf-collector/main.go:234-243 | The steps left after cancellation are bounded by the measure, whatever the schedule |
| ProbeTheorems.QuiescentMeansStopped | cmd/bpf-collector/main.go:234-243 | A run in which nothing can move any more has stopped |
| ProbeTheorems.RowsConserved | cmd/bpf-collector/otel_export.go:64-132 | Accepted rows are flushed, batched or queued, in order, in every interleaving; after stop all are flushed; none is sent on the closed channel |
| ProbeTheorems.RowsReadAreKept | cmd/bpf-collector/ringbuf.go:74-105 | In every interleaving the file has every row read but the one in hand, and the exporter accepted exactly those of the file's rows that found room in its queue; all of them exactly if it was never full |
| ProbeTheorems.DroppedIffFull | cmd/bpf-collector/otel_export.go:118-124 | In every run an offered row is dropped exactly if the queue holds 256 rows at that moment |
| ProbeTheorems.BeforeDrainEnds | cmd/bpf-collector/main.go:238-243 | Until the drain is through, the queue is open and stop waits |
| ProbeRun.Run.RegisterRingbufReader | cmd/bpf-collector/ringbuf.go:39-43 | Takes the protocol's step: the open reader is now where `stop` can find it |
| ProbeRun.Run.TakeReader | cmd/bpf-collector/ringbuf.go:45-49 | Takes the protocol's step under the lock, with other steps possible before the close |
| ProbeRun.Run.CloseTakenReader | cmd/bpf-collector/ringbuf.go:50-52 | Takes the protocol's step: a reader that was taken is closed |
| ProbeRun.Run.ReleaseRingbufReader | cmd/bpf-collector/ringbuf.go:55-62 | Takes the protocol's step: the reader is closed only if it is still registered |
| ProbeRun.Run.DrainRecord | cmd/bpf-collector/ringbuf.go:80-103 | A record becomes one more row read; an error ends the loop only on a cancelled context |
| ProbeRun.Run.DrainRecords | cmd/bpf-collector/ringbuf.go:64-105 | Whatever `stop` and the exporter's loop do between its steps, the loop ends, on a cancelled context, with the rows of the records read in order, of all of them unless it found the context cancelled before |
| ProbeRun.Run.DrainRingbuf | cmd/bpf-collector/main.go:272-285 | The goroutine ends; the file holds those rows, and the exporter accepted exactly those that found room in its queue |
| ProbeRun.Run.Stop | cmd/bpf-collector/main.go:234-243 | From any point, once the drain is through: the reader is closed exactly once, and every row that found room in the queue is flushed, in order |
| AutomationFires.PreimageUnambiguous | internal/automation/hash.go:12-16 | Equal preimages come from equal fires, whatever the placement id holds, if the action types hold no separator |
| AutomationFires.SeparatorInActionCollides | internal/automation/hash.go:13 | A separator in the action type would make two fires collide |
| AutomationFires.SupportedUnambiguous | internal/automation/hash.go:12-16 | No two fires the service can produce have equal preimages |
| AutomationFires.ActsAtMostOnce | internal/automation/worker.go:161-181 | Over all interleavings of any number of workers each fire is acted on at most once, by one of the actions of its type |
| AutomationFires.SuppressedIffSameType | internal/automation/worker.go:161-177 | An insert finds its key taken exactly when an action of the same type, whatever its webhook or network, was inserted for the same rule, target and window |
| AutomationActions.ValidateActions | internal/automation/rules_service.go:326-344 | Accepts exactly the lists in which nothing is wrong with any action by itself; otherwise says what is wrong with the first that is |
| AutomationMatch.CarriedOutIff | internal/automation/worker.go:161-181 | Without errors an action of a match is carried out exactly when it is the first of its type and its fire row was not there |
| AutomationMatch.AllCarriedOutIff | internal/automation/worker.go:161-181 | All of them are exactly when no two have one type and none of their rows was there |
| AutomationMatch.SecondWebhookIsNotCalled | internal/automation/hash.go:12-13 | A rule the API accepts whose second webhook is never called, whatever rows are there |
| AutomationEval.MergeFraud | internal/automation/eval.go:128-149 | The merged rows are the merge of the two maps, whatever the map order; earlier rows stay in place |
| AutomationEval.AggregateCampaigns | internal/automation/eval.go:172-186 | Per campaign the wrapped sum of its rows, for exactly the campaigns that occur |
| AutomationEval.SumIsSumOver | internal/automation/eval.go:172-186 | A campaign's sum does not depend on the order of the rows |
| AutomationEval.MergeConserves | internal/automation/eval.go:128-186 | Merged totals of a campaign are its stats totals plus its share of the fraud map |
| AutomationEval.WindowBounds | internal/automation/eval.go:30-34 | The window ends at the last whole minute and has the asked length; all evaluations within a minute share its end |
| AutomationEval.EvaluateRule | internal/automation/eval.go:188-254 | One match for each group that breaches and for no other; failed queries give an error |
| AutomationEval.PlacementMatchedIff | internal/automation/eval.go:188-252 | A rule on placements matches one exactly if what the two queries say of it breaches, rejects being taken from the fraud query for metrics about rejects |
| AutomationEval.CampaignMatchedIff | internal/automation/eval.go:188-231 | A rule on campaigns matches one exactly if all they say of its placements, added up as the machine does, breaches |
| AutomationEval.NeedsFraudIff | internal/automation/eval.go:256-263 | The fraud counts are asked for exactly if they can change what the metric reads |
| AutomationEval.MergedColumns | internal/automation/eval.go:128-149 | A placement in both results has the rejects of one and the rest of the other |
| AutomationEval.MatchPlacements | internal/automation/eval.go:232-252 | The same for single placements |
| AutomationEval.MatchCampaigns | internal/automation/eval.go:213-231 | The same for campaigns with their totals |
| AutomationEval.CampaignBreaches | internal/automation/eval.go:151-186 | If every placement has something to divide by and breaches, so does the campaign's pooled rate |
| AutomationEval.CampaignRuleFires | internal/automation/eval.go:188-231 | Regrouping such a rate rule by campaign fires for that campaign |
| AutomationMetrics.BreachPools | internal/automation/metrics.go:65-110 | Two breaching groups breach when pooled, for all four operators |
| AutomationMetrics.EmptyDenominatorDoesNotPool | internal/automation/metrics.go:94-99 | Not so with an empty denominator |
| AutomationMetrics.BreachIsLinear | internal/automation/metrics.go:65-92 | A threshold on a ratio is a linear condition on its parts |
| AutomationMetrics.ObservedReads | internal/automation/eval.go:151-170 | Which count each metric reads, and of which two counts each rate is a hundred times the ratio, 0 if there is no whole |
| AutomationMetrics.RateBreaches | internal/automation/metrics.go:65-110 | What each operator means for a ratio, over its two parts |
| AutomationWorker.NormalizeEvalInterval | internal/automation/interval.go:10-31 | Accepts exactly the allowed intervals at or above the floor |
| AutomationWorker.Serve | internal/automation/worker.go:77-187 | Over any schedule of rule edits and ticks, whatever fails: no fire is acted on twice; after a stamp that reached the database the next evaluation is an interval later, and no later tick acts before the recorded fire time plus cooldown; the history holds the evaluations of all ticks |
| AutomationWorker.SelectedPerCustomer | internal/automation/worker.go:98-111 | Each customer gets as many of its due rules as the cap allows, no fewer and no more |
| AutomationWorker.Worker.PutRule | internal/ingest/queries/automation.sql:17-31 | An edit keeps both timestamps and the history laws |
| AutomationWorker.Worker.InsertFire | internal/automation/worker.go:162-177 | Insert if absent; a reported error may hide an insert |
| AutomationWorker.Worker.RunAction | internal/automation/worker.go:178-180 | Acting is allowed only on a row just inserted, and is recorded |
| AutomationWorker.Worker.NoteFired | internal/automation/worker.go:182-185 | Only the fire time changes, if the update gets through |
| AutomationWorker.Worker.TakeAction | internal/automation/worker.go:161-181 | A row just inserted is acted on, a row that was there is not; the action goes through unless an insert or action reports an error |
| AutomationWorker.Worker.TakeActions | internal/automation/worker.go:161-181 | The actions begun are those to be carried out, in order, or a first part of them if an insert or action reports an error |
| AutomationWorker.Worker.ApplyMatch | internal/automation/worker.go:147-187 | The same, and the fire time is noted exactly if no error was reported; without errors it succeeds |
| AutomationWorker.Worker.ApplyMatches | internal/automation/worker.go:129-133 | Every match is applied, whether or not those before went through; without errors begun is, match after match, exactly what has to be |
| AutomationWorker.Worker.NoteEvaluated | internal/automation/worker.go:111-115 | Only the evaluation time changes, if the update gets through |
| AutomationWorker.Worker.EvaluateOne | internal/automation/worker.go:111-133 | A cooling rule is stamped and left; otherwise every match is looked at, and without errors begun is, match after match, exactly what has to be |
| AutomationWorker.Worker.ConsiderOne | internal/automation/worker.go:99-133 | Due check and budget decide as the specification of the selection does |
| AutomationWorker.Worker.Tick | internal/automation/worker.go:77-134 | A tick evaluates exactly the selected rules, in order, and loses no history and no fire row; without errors it has begun, in order, exactly what the matches of the rules that are not cooling ask for (which that is: TickBegins below) |
| AutomationTheorems.SelectedIff | internal/automation/worker.go:99-110 | A listed rule is evaluated exactly if it can be decoded, was never evaluated or that is its interval ago, and fewer due rules of its customer come before it than the cap, if there is one |
| AutomationTheorems.SameRowIff | internal/automation/hash.go:12-16 | Two actions share a fire row exactly if rule, campaign, placement, window end and type are the same |
| AutomationTheorems.MatchesAreSeparate | internal/automation/worker.go:129-181 | Matches with different targets do not get in each other's way: begun is, match after match, what each would begin alone |
| AutomationTheorems.BegunIff | internal/automation/worker.go:161-181 | Over any matches, an action is begun exactly if it is the first of its type in a match and its fire row, written out, was not there at the beginning |
| AutomationTheorems.CarriedInOrder | internal/automation/worker.go:161-181 | A match carries out its actions in the order of the rule |
| AutomationTheorems.TickBegins | internal/automation/worker.go:77-181 | A tick without errors has begun exactly: the first action of each type, for each target found, of each evaluated rule that never fired or did so at least its cooldown ago, if its fire row was not there before the tick |
| AccessText.NormalizeIdempotent | internal/access/validate.go:85-87 | Normalising a normalised role code changes nothing |
| AccessText.TrimCuts | internal/access/validate.go:85-87 | Trimming cuts blanks off both ends and nothing else |
| AccessText.CasesMove | internal/access/validate.go:85-87 | Changing case moves letters of the other case and nothing else |
| AccessText.SortedListUnique | internal/access/compile.go:25-28 | A strictly sorted list is determined by its elements |
| AccessCompile.CompileRolePermissions | internal/access/compile.go:8-30 | The strictly sorted list of exactly the permissions the role spells out and those its capabilities expand to |
| AccessCompile.CompilationUnique | internal/access/compile.go:8-30 | Map order cannot show in a compilation |
| AccessValidate.ValidateRole | internal/access/validate.go:26-81 | Finds exactly the problems a role has |
| AccessValidate.ValidateDocument | internal/access/validate.go:15-83 | The complaints are exactly the true ones; every role is compiled under its code |
| AccessValidate.AcceptableIffNoViolation | internal/access/validate.go:15-83 | A document is acceptable exactly when there is nothing to complain about |
| AccessValidate.AcceptableMeans | internal/access/validate.go:15-83 | A document is acceptable exactly if its version is unset or 1, there are at most 128 roles, each has an upper-case code of at most 16 characters, a known scope and known capabilities, and grants 1 to 64 known permissions, the wildcard only if allowed |
| AccessValidate.ComplaintNames | internal/access/validate.go:26-81 | A complaint names the field of the role it is about |
| AccessValidate.CodeProblemsMean | internal/access/validate.go:27-38 | What each problem of a role's code means, in terms of the code |
| AccessValidate.NameProblemsMean | internal/access/validate.go:39-49 | What each problem of its scope and capabilities means, in terms of the role and the catalogue |
| AccessValidate.GrantProblemsMean | internal/access/validate.go:50-81 | What each problem of its permissions means, in terms of what it spells out and what its capabilities expand to |
| AccessValidate.AcceptableMonotone | internal/access/roles_store.go:160-164 | Allowing wildcards and changing stamps never makes a document unacceptable |
| AccessDocument.ToDocument | internal/access/roles_store.go:317-329 | Reading gives normalised codes, one of the roles behind each, and version 1 for 0 |
| AccessDocument.DecodedIsCanonical | internal/access/roles_store.go:67-77 | A document that was read has normalised codes and a version |
| AccessDocument.CanonicalDecodesToItself | internal/access/roles_store.go:302-343 | Reading such a document back gives itself and nothing else |
| AccessDocument.RulesAreSound | internal/access/roles_store.go:67-77 | The YAML documents meet all that the protocol asks of files |
| AccessDocument.InForce | internal/access/roles_store.go:160-181 | Where disk, memory and policy agree, each role of the document is in force with exactly the permissions it spells out or has by capabilities, and its scope |
| AccessProtocol.ApplyEstablishesAgreement | internal/access/roles_store.go:109-139 | After a successful apply disk, memory and policy agree; the second validation cannot fail |
| AccessProtocol.AcceptsIff | internal/access/roles_store.go:94-117 | A request is accepted exactly if it is at most 256 KiB of an acceptable document, the expected revision is none, or nothing is loaded, or it is the current one, role A stays, and no other role that is dropped has users that are known of, or might be |
| AccessProtocol.AppliedIsTheRequest | internal/access/roles_store.go:118-139 | What is applied is the document asked for, with the larger revision, the time and the actor; the policy has its grants, and those of other roles as before |
| AccessProtocol.LoadEstablishesAgreement | internal/access/roles_store.go:49-65 | So they do after a load |
| AccessProtocol.RestartAfterCrash | internal/access/roles_store.go:249-279 | A crash in an apply leaves the complete old or new document, and a restart reads exactly that, if and only if it is within the size limit |
| AccessProtocol.OversizedApplyDoesNotReload | internal/access/roles_store.go:57-59 | An applied document can be loaded again exactly when its printed form is within the limit |
| AccessOversize.OversizedRequestExists | internal/access/roles_store.go:98-131 | From every state with a 64-bit revision there is a request within the limit that is applied and cannot be loaded again |
| AccessProtocol.LargestRevisionIsReached | internal/access/roles_store.go:118-120 | An accepted document that asks for the largest revision gets it |
| AccessProtocol.RevisionGrowsIff | internal/access/roles_store.go:118-120 | An apply raises the revision exactly when it is below the largest integer |
| AccessProtocol.WrappedRevisionDropsTheGuard | internal/access/roles_store.go:112-120 | At the largest integer it wraps, and then no request is refused for its revision |
| AccessRuns.AlwaysAgrees | internal/access/roles_store.go:94-181 | Disk, memory and policy agree in every state of every run of applies, refusals, reloads and crashes whose files fit |
| AccessRuns.RevisionsGrow | internal/access/roles_store.go:109-120 | Revisions never fall in such a run, and each apply raises them, while none is the largest integer |
| AccessRuns.AtMostOneWinner | internal/access/roles_store.go:109-114 | Of several applies that expect the same revision of a loaded document at most one succeeds |
| AccessRuns.HeldRoleSurvives | internal/access/roles_store.go:183-220 | Role A, and every role reported in use throughout, is still in document and policy at the end |
| AccessRuns.OversizedRestartForgets | internal/access/roles_store.go:109-117 | After a restart on an oversized file no revision or removal check applies |
| AccessStore.Policy.SetRole | internal/controlplane/authz/policy.go:143-152 | The role's grant is replaced, other roles are untouched |
| AccessStore.Policy.Reload | internal/controlplane/authz/policy.go:194-196 | No cached permissions are left |
| AccessStore.RolesStore.ApplyParsed | internal/access/roles_store.go:160-181 | All roles installed, cache dropped and document replaced, or nothing changed |
| AccessStore.RolesStore.WriteAtomic | internal/access/roles_store.go:249-279 | The primary file holds the old or the complete new content at every moment; the new one in the end exactly if the path is allowed, the document prints, and nothing is in the way |
| AccessStore.RolesStore.Check | internal/access/roles_store.go:98-117 | Accepts exactly what the protocol accepts; a refusal's reason is true |
| AccessStore.RolesStore.ApplyBytes | internal/access/roles_store.go:94-139 | A successful apply is a step of the protocol; any other leaves disk, memory and policy as they were, and has a true reason: the request, what it would print as, or trouble with the file; every content of the file meanwhile can be recovered from |
| AccessStore.RolesStore.LoadFromDisk | internal/access/roles_store.go:49-65 | A successful load is a step of the protocol; any other changes nothing and has a true reason |
| AccessStore.EnsureRolesNotRemoved | internal/access/roles_store.go:183-220 | Passes exactly if role A stays and no removed role is known to be held |
| AccessStore.RolesHeld | internal/access/roles_store.go:232-247 | Reports exactly the removed roles with users |
| LedgerLines.ScanDecimal | internal/billingadmin/export_handlers.go:311-313 | The printed cursor is scanned back to the same 64-bit number |
| LedgerLines.PageContinues | internal/ledger/queries/billing.sql:122-130 | A page asked for with the last id continues right behind it |
| LedgerLines.SelectMembers | internal/ledger/queries/billing.sql:122-130 | A line is in a window exactly if it is that of a row of its customer, from its start on and before its end |
| LedgerLines.SelectIncreases | internal/ledger/queries/billing.sql:122-130 | The lines of a window have increasing ids |
| LedgerExport.PageIsNext | internal/billingadmin/ledger_lines.go:24-31 | A page and its cursor are what the loop needs: the next lines, and a cursor unless they are the last |
| LedgerExport.Ledger.ListLedgerLinesInWindow | internal/billingadmin/handlers.go:1407-1427 | The page of the query and its cursor; a limit that is not positive means 1000 |
| LedgerExport.JobRunner.WriteCSV | internal/billingadmin/export_handlers.go:261-317 | The file is the header and the first lines of the window in id order, up to the row limit, none missing, for any page size; each is the line of a row of the job's customer and period, and below the limit no such row that was there when the job was created is missing |
| LedgerExport.JobRunner.WriteNDJSON | internal/billingadmin/export_handlers.go:319-365 | The same lines, as documents |
| LedgerExport.CoversStatic | internal/billingadmin/export_handlers.go:261-365 | Over a ledger that did not grow both write exactly the first min(limit, n) lines |
| LedgerExport.RenderedDetermines | internal/billingadmin/export_handlers.go:299-304 | Equal files come from equal lines, in either format |
| LedgerExport.CsvColumns | internal/billingadmin/export_handlers.go:269-304 | Header, ids and amounts in decimal, types and times are in their columns |
| LedgerExport.CoversRows | internal/ledger/queries/billing.sql:122-130 | Lines that are the first of a window are those of the right rows, in id order, without repeat |
| LedgerExport.JobRunner.ConfigureExport | internal/billingadmin/export_handlers.go:94-104 | The page size stays positive |
| LedgerExport.JobRunner.CreateJob | internal/billingadmin/export_handlers.go:106-149 | A pending job over the window asked for, exactly when customer, period and format are valid |
| LedgerExport.JobRunner.RunJob | internal/billingadmin/export_handlers.go:199-259 | Ends completed with a complete file, or failed, and that exactly if a file operation, a query or a cancellation was in the way; other jobs are untouched |
| LedgerExport.JobRunner.OpenDownload | internal/billingadmin/export_handlers.go:161-176 | A download is handed out exactly for a completed job whose file is still there, and holds the lines of the rows of the job's customer and period, as above |
| Overdraft.CalculateOverdraft | internal/billingadmin/worker_credit.go:93-121 | The local reassignments compute the wrapped amount |
| Overdraft.TrustedIff | internal/billingadmin/worker_credit.go:93-121 | For every top-up sum up to a bound the amount is the intended one and between 0 and the cap, if and only if the first product at the bound fits 64 bits |
| Overdraft.HugePercentHidesOverflow | internal/billingadmin/worker_credit.go:99-103 | A percentage near the largest integer for which the amount is wrong without leaving the range |
| Overdraft.NothingKeptIsZero | internal/billingadmin/worker_credit.go:109-118 | A penalty of a hundred percent gives 0, whatever overflows |
| Overdraft.WrappedIsExact | internal/billingadmin/worker_credit.go:99-118 | If the first product fits 64 bits, no other overflows and the amount is the intended one |
| Overdraft.NeverAboveCap | internal/billingadmin/worker_credit.go:105-107 | Whatever overflows, the cap holds |
| Overdraft.OverflowGivesNegative | internal/billingadmin/worker_credit.go:99-103 | Inputs whose amount is negative |
| Overdraft.ExactWithinCap | internal/billingadmin/worker_credit.go:93-121 | Non-negative inputs give an amount between 0 and the cap |
| Overdraft.AmountIs | internal/billingadmin/worker_credit.go:93-107 | Without a penalty the amount is the tier's percentage of the top-ups rounded down, or the cap if that is less; which tier, and from which age on |
| Overdraft.PenaltyTakes | internal/billingadmin/worker_credit.go:109-118 | With one it is a hundred percent less the penalty of that, rounded down, the penalty being kept between 0 and 100 |
| Overdraft.MonotoneInTopups | internal/billingadmin/worker_credit.go:93-121 | More top-ups never lower it |
| Overdraft.AntitoneInLag | internal/billingadmin/worker_credit.go:109-118 | A larger reconciliation lag never raises it |
| Overdraft.OlderIsNoWorse | internal/billingadmin/worker_credit.go:94-103 | Age never lowers it if the mature percentage is no smaller |
| Overdraft.MonotoneInAgeIff | internal/billingadmin/worker_credit.go:94-103 | With a middle tier, an open cap and no penalty: exactly then |
| DlqFrames.Be32RoundTrip | cmd/dlq/main.go:209-210 | The length prefix reads back |
| DlqFrames.FramesAppend | cmd/dlq/main.go:95-103 | Appended archives are the archive of all their records |
| DlqFrames.RestoreIff | cmd/dlq/main.go:369-381 | Reading gives back the records exactly when every length fits 32 bits and every prefix is read whole |
| DlqFrames.SmallRestoreIff | cmd/dlq/main.go:349-381 | For records below 4096 bytes: exactly when no prefix straddles a block |
| DlqFrames.StraddlingArchiveIsNotRestored | cmd/dlq/main.go:369 | An archive of two records that is not restored |
| DlqMessages.OnlyEmptyLettersLoseTheirEvent | cmd/dlq/main.go:131-202 | A dead letter without an event is archived for exactly those messages that are one |
| DlqMessages.NormalisedKeepsTheEvent | cmd/dlq/main.go:131-202 | Every message is archived with the event it is, or is a dead letter around, or, if it can be read as neither, as the payload; a flat one with each field in its place; and with what is known of the letter |
| DlqMessages.EventIsUnique | cmd/dlq/main.go:131-202 | That is one event at most |
| DlqProtocol.RunInvariant | cmd/dlq/main.go:95-236 | In every run file and memory hold what was given to the writer, in order, and messages are deleted only in whole archived batches |
| DlqProtocol.KeptIff | cmd/dlq/main.go:209-225 | In every state of every run each message is in file or stream exactly when the file reaches to the end of the last deleted record |
| DlqProtocol.CrashLosesIff | cmd/dlq/main.go:102-103 | A process that dies loses a message exactly when its memory holds more than the records not yet deleted |
| DlqProtocol.SuccessKeepsIff | cmd/dlq/main.go:103-235 | After a successful return nothing is lost, and the file is complete, exactly when the last flush worked |
| DlqProtocol.CrashLosesAMessage | cmd/dlq/main.go:222-225 | A run that dies with a message in neither file nor stream |
| DlqProtocol.SuccessLosesAMessage | cmd/dlq/main.go:103 | A run that returns success with a message in neither |
| DlqArchive.XReadIsFront | cmd/dlq/main.go:114-127 | A read returns the front of what is left, as much as was asked for if there is so much, and nothing only at the end |
| DlqArchive.DeadLetters.ArchiveOne | cmd/dlq/main.go:131-216 | One record more, that keeps the event of the message, is given to the writer, unless it does not print or the write fails; then the run is on its way out |
| DlqArchive.DeadLetters.ArchiveMessages | cmd/dlq/main.go:131-220 | All records of a batch are given to the writer before anything is deleted |
| DlqArchive.DeadLetters.ArchiveBatch | cmd/dlq/main.go:128-225 | A batch leaves the stream only after that |
| DlqArchive.DeadLetters.ArchiveDLQ | cmd/dlq/main.go:95-236 | Every moment is a point of a run of the protocol; success empties the stream, and then, behind what the run found, the file holds exactly the records of all messages, with their events, if and only if the flush worked; if all messages print and nothing is in the way, both come about (when the records can be read back: SuccessRestoresIff below) |
| DlqRestore.EmittedAppend | cmd/dlq/main.go:362-424 | Restoring in pieces gives what restoring the whole gives |
| DlqHistory.WholeIsInFile | cmd/dlq/main.go:95-103 | The whole records of a run, which the rows below speak of, are those its messages count as kept by |
| DlqHistory.FlushedAtBoundaryIff | cmd/dlq/main.go:102-103 | A run whose flush worked has all its records in the file, and left it at the end of one exactly when no write was cut short |
| DlqHistory.RestoresIffClean | cmd/dlq/main.go:95-381 | Over any runs, interrupted ones too: the file is read back as all records that lie whole in it exactly when every run left it at the end of a record, lengths fit, and prefixes are read whole |
| DlqHistory.SuccessIsClean | cmd/dlq/main.go:95-236 | If all runs succeeded and their flushes worked, each left the file at the end of a record, and there is a whole record of every message |
| DlqHistory.SuccessRestoresIff | cmd/dlq/main.go:95-381 | After a run that succeeded, its messages and all whole records before it are read back exactly when every run before it left the file at the end of a record, lengths fit, and prefixes are read whole |
| DlqHistory.TornFrameHidesTheNext | cmd/dlq/main.go:96-103 | A run dies two bytes into the file; the next archives and deletes its message and succeeds; reading back gives an empty record and an error |
| DlqHistory.ArchiveThenRestore | cmd/dlq/main.go:95-438 | Across any number of runs into one file, each of which left it at the end of a record, what comes back are the printed events of the messages whose records lie whole in it, in order |
| DlqHistory.EventComesBack | cmd/dlq/main.go:134-143 | A message printed from an event comes back as it was, byte by byte, unless it can be read as a dead letter |
| DlqHistory.LetterComesBack | cmd/dlq/main.go:134-155 | A dead letter comes back as the event inside |
| DlqHistory.UnknownComesBack | cmd/dlq/main.go:143-150 | A message nothing can read comes back as the payload of an event |
| DlqHistory.FlatComesBack | cmd/dlq/main.go:152-202 | A flat message comes back with each field in its own place |
| DlqHistory.ArchiveAndRestore | cmd/dlq/main.go:95-438 | One run into a new file and a restore of it, of which both succeed and flush, add exactly these to the target, for all messages, in order, if lengths fit and prefixes are read whole; if all prints and nothing is in the way only a file that cannot be restored makes them fail |
| DlqRestore.Restorer.RestoreDLQ | cmd/dlq/main.go:336-438 | Emits exactly the file's original events for any batch size; a failed run has emitted a first part, and fails only if something is in the way or the file cannot be restored |
| DlqEdit.EditIdentityIff | cmd/dlq/main.go:569-628 | An unedited event is unchanged exactly when it has an original event whose campaign id is 16 bytes or no UUID text |
| DlqEdit.EditSettles | cmd/dlq/main.go:569-628 | A second edit changes nothing more |
| DlqEdit.EditsTakeEffect | cmd/dlq/main.go:569-628 | The text shows each field in its place, and a field changed in it is the field changed in the event |

## Left out

- BrokerTheorems.CommittedIsStored: speaks of storing workers only, because shadow mode does not keep it; the exact condition is the row below it.
- AccessRuns.AtMostOneWinner: applies run one after the other, because the lock is not held from the revision check to the write and concurrent applies are not kept apart by the code.
- AccessRuns.AlwaysAgrees: edits of the roles file by hand between a write and a reload are no events of the run, because they are meant to be out of step until the reload.
- AccessProtocol.ApplyEstablishesAgreement: speaks of the roles of the current document, because grants of removed roles stay in the policy.
- AutomationMatch.AllCarriedOutIff: an action without a webhook, placement or network to act on counts as carried out, as the source returns no error for it.
- AutomationWorker.Worker.Tick: one worker; that workers racing for fire rows act once is proved of the interleavings in `automation_fires.dfy`.
- DlqHistory.ArchiveThenRestore: one direction, because events may print alike although their records differ; on records it is `DlqHistory.RestoresIffClean`, both ways.
- BrokerResume.ExactlyOnce: one direction, because a run that is not smooth need not store twice; `BrokerResume.CrashStoresTwice` is one that does.
- DlqArchive.DeadLetters.ArchiveDLQ: no messages arrive while it runs, because it need not end otherwise.
- LedgerExport.JobRunner.RunJob: jobs run one at a time; a job touches only its own record and file.
- Overdraft.TrustedIff: leaves out percentages within ten thousand of the largest integer, because it is false there, as `Overdraft.HugePercentHidesOverflow` shows.
- ProbeRun.Run.DrainRecord: a row that cannot be encoded is not modelled; the source drops that error.
- Overflow of broker offsets at 2^64, and delivery in order across partitions.
- Parsing of broker payloads, the fraud hook and metrics; parse errors are records without events.
- The two sampling goroutines and the other helper loops of the probe, and its dumps at the end of `stop`.
- Floating-point rounding in rates, thresholds and ages.
- Unicode spaces and letters in role codes, scopes and permissions.
- What users see of a role (`viewsFromDoc`), the per-user permission cache beyond its being emptied, and a store without a policy.
- A start-up read of the roles file that fails although the file is there.
- The wording of errors, job timestamps, sizes and download addresses.
- The cut of retry counts to 32 bits when a message is archived.
- Redis beyond ordered streams with delete; rate limiting; `requeueDLQ` and `inspectStream`.
- The JSON text between the two halves of an edit, and the editor.
- HTTP handlers, flags, wiring, logging, and everything behind the interfaces named here.
