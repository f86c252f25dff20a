# Factor pipeline: a verified model

This project models, in Dafny 4.11, the factor pipeline of this repository and the stateful
monitors of its observability dashboard, and proves what they guarantee.

* A generator fills the factor queue. Receivers take factor messages, compute all proper
  divisors, send one result message each, and delete the factor messages whose result was
  accepted. Persist workers parse result messages, write them to `factors` and keep the
  `scheme_summary` index in the same transaction, and only then delete them.
* The queues deliver at least once: batched receives, partial send failures, expiring
  visibility, redrive to the dead-letter queue, and crashes between any two calls.
* The dashboard keeps a rolling log baseline per task, an alert cooldown per key, and a pruned
  thirty-minute problem history.

`dafny verify dfyconfig.toml` checks everything.

## Modules

| file | what it holds |
|---|---|
| `Wire.dfy` | integer texts as `int` and `parseInt` read them, and printed integer lists, with the reader of the next stage |
| `Uuid7.dfy` | the 128-bit key layout, bit by bit, and its hexadecimal text |
| `Divisors.dfy` | the square-root-bounded divisor search |
| `Process.dfy` | one round and the loop of a receiver |
| `Store.dfy` | the two tables, their upserts, and what batching does to them |
| `Persist.dfy` | message parsing, buffers, the database session, both persist workers |
| `Pipeline.dfy` | the step system: queues, receivers, workers, database, history |
| `PipelineInvariant.dfy` | every step keeps the invariant |
| `PipelineTheorems.dfy` | conservation, payload, index, order and trace theorems over all runs |
| `PipelineOnce.dfy` | without a second hand-out nothing is done twice |
| `PipelineRuns.dfy` | runs that exist: delivery of any batch, and what each exception looks like |
| `LogBaseline.dfy` | the rolling baseline and the anomaly rules |
| `Alerts.dfy`, `History.dfy`, `Problems.dfy` | alert cooldowns and the pruned history |
| `Generator.dfy` | batches, chunks and top-ups |
| `Arithmetic.dfy`, `Sequences.dfy`, `Sums.dfy`, `Wrappers.dfy` | shared mathematics |

Loops and objects of the source are methods and classes here (`DoFactor`, `ReceiverLoop`,
`Worker`, `BufferedWorker`, `Session`, `Monitor`, `Alerter`, `Recorder`, `Run`). Each is proved
against a function, and the theorems are about that function. The receiver loop and the workers
take the handling of one receive and the parsing of one message as a parameter, because their
control flow does not depend on it; `Process.Handling` and `Persist.Parsing` are the
repository's own. `PipelineRuns` does the same with what a result says of its source. The Python
and TypeScript stages share one model with a `Dialect` parameter where they differ.

The step system calls the same functions as the methods: `Sends`, `Deletes`, `Accepted`,
`ParsePoll`, `CommitBatch`. Three of its state components are history that no process reads:
the messages each queue ever accepted, and the messages ever committed, in commit order.

## What the code does in corner cases

* Two messages that draw the same key keep only the first document
  (`ON CONFLICT DO NOTHING`), yet both are counted and both are deleted from the queue. So
  "no message is lost" is false of the code. `LostIff` gives the exact condition: an accepted
  message is unaccounted for if and only if it has left the factor queue and its dead letters,
  no result of it is waiting, and every committed result of it was dropped; `DroppedIffDrawRepeats` says that a result is
  dropped if and only if an earlier one has the same timestamp field and the same random bits.
  `CollisionLosesMessage` shows a run that loses a message. The index counts exactly the table's
  rows if and only if no key was drawn twice.
* Python refuses a factor or scheme text that spells no integer: the exception ends the receiver
  and the message stays. The TypeScript receiver never parses `Scheme` and reads `Factor` with
  `parseInt`, which does not raise; `NaN` has no divisors. A message with the text "abc" is
  therefore answered with `[]`, deleted, and stored with a null factor (`TextIsStoredAsNull`).
  `EveryRowIsCorrectIff` gives the exact condition for a correct row, and `LeavesIffReadable`
  says which messages can leave the factor queue at all.
* The queues may hand a message out again, and then it may have several results and rows, which all
  tell the same (`RedeliveryRepeatsResult`). While no visibility timeout expires and no receive
  holds a message twice, it has at most one of each (`AtMostOneResult`, `AtMostOneRow`).
* The final table does not depend on how messages are split into commits; it does not depend on
  the commit order either if and only if messages sharing a key that the table does not hold yet
  carry the same document. The summary never depends on either. Both hold from any tables that
  the workers start with.
* `BASELINE_WINDOW` 0 never cuts the history (`h[-0:]` is the whole list), and with a window of
  1 a task is `learning` forever. `WindowExactIff` and `LearnsTwiceIff` give the exact windows.
* The stored timestamp range of a scheme comes from the second clock reading of the parse, not
  from the document's own `persisted_at_ms`.
* Alerts for one key are more than 300 s apart even if the clock runs backwards. The pruned
  history equals the filtered complete log if and only if no call brought a problem that is newer
  than the last cutoff but not newer than the cutoff of that or a later call; a clock that does
  not run backwards is enough.
* An unchanging log is quiet if and only if the spike factor is at least 1, or the log is empty,
  or fewer than two snapshots are stored (`UnchangingQuietIff`).
* A key whose alert is still cooling down since time 0 is not alerted either: a missing entry
  reads as time 0.
* A repeated urgent problem in one call, or a second problem with the same key, is not
  selected again in that call.
* The generator's top-up loop ends if and only if the initial batch reaches the limit or a
  top-up is positive.

## Assumptions

* `int(n ** 0.5)` and `Math.floor(Math.sqrt(n))` are the integer square root; the generator draws
  no n above 500,000,000, where this holds. Beyond 2^52 they may be off, and above the range of a
  double Python raises.
* Averages in the anomaly rules are exact reals, and times in the dashboard are real seconds.
* A receipt handle names its message. A delete request may remove any part of what it names,
  which covers stale handles and failed entries.
* A queue never assigns a message id twice, and no id is the empty text.

## Model

| member | source | states |
|---|---|---|
| `Wire.ReadPrinted` | infrastructure/code/process.py:55-56 | the integer texts of a result message read back as the same integers, of either sign, in both dialects |
| `Wire.ReadPadded` | infrastructure/code-ts/src/process.ts:112 | so they do after white space, and with white space (Python) or any text that does not go on with a digit (TypeScript) behind them |
| `Wire.PythonReadsIff` | infrastructure/code/process.py:39-40 | `int` reads exactly white space, at most one sign, digits with single underscores between them, white space; and the value is that of the digits |
| `Wire.JsonReadsNumberIff` | infrastructure/code-ts/src/process.ts:112 | `parseInt` never raises, and yields a number exactly when after white space and at most one sign comes a digit |
| `Wire.ListRoundTrip` | infrastructure/code/process.py:51 | for every integer list and both dialects, the printed `Result` text parses back to the same list |
| `Wire.PrintListInjective` | infrastructure/code-ts/src/process.ts:61 | different lists never print as the same text |
| `Wire.PrintedNatIsDigitText` | infrastructure/code/persist.py:133 | a printed timestamp is all digits and has the printed value |
| `Divisors.DoFactor` | infrastructure/code/process.py:14-27 | the root-bounded search with its two accumulators returns `ProperDivisors(n)` for every n |
| `Divisors.ProperDivisorsExact` | infrastructure/code-ts/src/process.ts:19-32 | that list is strictly increasing and holds exactly the d with 1 <= d < n dividing n |
| `Divisors.DivisorPairing` | infrastructure/code/process.py:20-27 | r[j] * r[len - j] = n for every inner position j |
| `Divisors.EvenLengthIffSquare` | infrastructure/code/process.py:24-26 | the list has even length exactly when n is a perfect square |
| `Divisors.LengthOneIffPrime` | infrastructure/code/report.py:52 | the list has length 1 exactly when n is prime |
| `Uuid7.MaskIsRemainder` | infrastructure/code/persist.py:92 | masking with k ones is the remainder modulo 2^k, for integers of either sign |
| `Uuid7.OrOfDisjoint` | infrastructure/code/persist.py:95 | or-ing a value below 2^k into a value shifted by k is addition |
| `Uuid7.IntegerIsSum` | infrastructure/code/persist.py:89-96 | the four ors of the key are the sum of the shifted fields, for every timestamp and draw |
| `Uuid7.LayoutRoundTrip` | infrastructure/code-ts/src/persist.ts:32-36 | the key decodes to timestamp mod 2^48, version 7, rand_a, variant 2, rand_b (section 5.7 of RFC 9562) |
| `Uuid7.EarlierIsSmaller` | infrastructure/code-ts/src/persist.ts:33-36 | a smaller timestamp modulo 2^48 gives a smaller integer, whatever the draws |
| `Uuid7.TextOrder` | infrastructure/code-ts/src/persist.ts:37-38 | lexicographic order and equality of the 8-4-4-4-12 texts are those of the integers |
| `Uuid7.KeysSortByTime` | infrastructure/code/persist.py:139 | key texts of different milliseconds of one 2^48 window sort by time |
| `Uuid7.KeysCollideOnlyOnEqualFields` | infrastructure/code/persist.py:93-96 | two keys are equal exactly when timestamp field and both draws are |
| `Process.ReadableIff` | infrastructure/code/process.py:88-95 | handling a message raises nothing exactly when both attributes are there and, in Python, spell integers |
| `Process.PassOnReads` | infrastructure/code-ts/src/process.ts:48-66 | an attribute reads as the same value after it was reprinted (Python) or passed on (TypeScript) |
| `Process.ResultSpeaksForSource` | infrastructure/code/process.py:37-64 | a built result message names its source and carries its time, its factor and scheme as read, and the printed divisors |
| `Process.BuildEntries` | infrastructure/code/process.py:91-97 | the loop builds one send and one delete entry per message, under the same index |
| `Process.FilterFailed` | infrastructure/code/process.py:105-106 | the kept delete entries are those whose Id is not Failed, in order |
| `Process.AcceptedExact` | infrastructure/code-ts/src/process.ts:123-128 | an entry is kept exactly when it was there and its Id did not fail |
| `Process.AcceptedInOrder` | infrastructure/code-ts/src/process.ts:128 | the kept entries are those at exactly the positions whose Id did not fail, in order and as often |
| `Process.DeletedIffResultAccepted` | infrastructure/code/process.py:91-109 | a factor message is deleted exactly when the send entry with its own result was not Failed; Ids are distinct |
| `Process.OnlyReceivedAreDeleted` | infrastructure/code-ts/src/process.ts:107-131 | nothing else is deleted |
| `Process.Round` | infrastructure/code-ts/src/process.ts:107-131 | the requests made for one receive, or none when handling a message raises: in Python a missing or unreadable attribute, in TypeScript a missing one |
| `Process.ReceiverLoop` | infrastructure/code/process.py:67-115 | requests and count of the whole loop; it ends at the third empty poll in a row, at an exception, or when cut off |
| `Process.StillPollingExact` | infrastructure/code/process.py:81-86 | the loop goes on exactly while no three polls in a row were empty and nothing raised |
| `Process.LoopDeletesFollowSends` | infrastructure/code/process.py:99-109 | every delete request of a loop directly follows the send of the same round |
| `Store.BatchIsOneByOne` | infrastructure/code/persist.py:190-194 | a transaction with per-scheme totals leaves what its messages leave one by one |
| `Store.CommitPointsIrrelevant` | infrastructure/nomad/scripts/persist.py:198-200 | where the commits fall in a stream of messages makes no difference |
| `Store.SummaryExact` | infrastructure/code/persist.py:142-149 | each summary row is the count, minimum and maximum of its scheme's timestamps; other schemes have none |
| `Store.FactorsHoldLoaded` | infrastructure/code/persist.py:191 | the table keeps its rows and otherwise holds exactly the loaded keys, each with a document loaded under it |
| `Store.FirstDocumentStays` | infrastructure/code/persist.py:191 | the first message under a key that the table does not hold keeps its document for good |
| `Store.HasRowIff` | infrastructure/code/persist.py:191 | a factor message has a row exactly when one of its loaded results was not dropped |
| `Store.SchemesDoNotMix` | infrastructure/code/persist.py:140 | two documents have the same scheme text exactly when they have the same scheme, so different schemes never share a summary row |
| `Store.CountIsRowsPlusDropped` | infrastructure/code/persist.py:190-194 | a scheme's count is its table rows plus the messages dropped on conflict |
| `Store.IndexAgreement` | infrastructure/code/persist.py:142-149 | the count is never below the rows, and equal for all schemes exactly when keys are fresh |
| `Store.SummaryOrderIrrelevant` | infrastructure/code-ts/src/persist.ts:123-130 | from any tables, the summary is the same for every order of the messages |
| `Store.PartitionIrrelevant` | infrastructure/nomad/scripts/persist.py:140-150 | from any tables: same summary and keys for every split into commits in every order; same table for coherent messages |
| `Store.OrderMattersUnlessCoherent` | infrastructure/code/persist.py:191 | otherwise some commit order leaves a different table |
| `Store.BatchingTransparentIffCoherent` | infrastructure/nomad/scripts/persist.py:140-200 | from any tables, splitting and reordering commits is invisible exactly when messages sharing a new key share the document |
| `Persist.ParseOfResult` | infrastructure/code/persist.py:98-140 | a result message that speaks for a factor message parses, for all clocks and draws, into a document carrying that message under a key of its send time |
| `Persist.TimesOfResult` | infrastructure/code/persist.py:113-137 | pull, send and factor times and the runtime arrive in the document as the process stage reported them |
| `Persist.BufferMessage` | infrastructure/nomad/scripts/persist.py:184-194 | rows, receipts and scheme batches take one message consistently |
| `Persist.ParseInto` | infrastructure/nomad/scripts/persist.py:181-196 | the loop buffers exactly the messages that parse; the others touch no buffer |
| `Persist.BufferedMeaning` | infrastructure/nomad/scripts/persist.py:158-196 | rows, receipts and batch counts agree in size, and each batch is count, minimum and maximum of its scheme |
| `Persist.BatchCountsAddUp` | infrastructure/nomad/scripts/persist.py:186-190 | the batch counts sum to the number of buffered messages |
| `Persist.Session.InsertValues` | infrastructure/code/persist.py:191 | inserts rows into the open transaction, skipping present keys |
| `Persist.UpsertEach` | infrastructure/nomad/scripts/persist.py:144-145 | upserting the dictionary in any order merges every scheme once |
| `Persist.ChunksCoverReceipts` | infrastructure/nomad/scripts/persist.py:147-149 | the ten-wide requests have 1 to 10 entries with distinct Ids and concatenate to the receipts |
| `Persist.DeleteAll` | infrastructure/code-ts/src/persist.ts:224-227 | the loop makes exactly those requests |
| `Persist.Flush` | infrastructure/nomad/scripts/persist.py:140-150 | a flush makes the buffered messages durable one by one in effect, then requests their deletion |
| `Persist.FlushCommitsFirst` | infrastructure/nomad/scripts/persist.py:146-149 | every delete of a flush comes after its commit and deletes only committed messages |
| `Persist.Worker` | infrastructure/code/persist.py:151-203 | what it parsed is durable and deleted, nothing else; it exits exactly at the first empty poll |
| `Persist.BufferedWorker` | infrastructure/nomad/scripts/persist.py:152-202 | for any COMMIT_SIZE it has committed, deleted and kept what `BufferAt` says, one commit per group, and exits exactly at the first empty poll that finds nothing held; then, like `Worker`, it has committed and deleted everything parsed |
| `Persist.BufferedExact` | infrastructure/nomad/scripts/persist.py:158-200 | committed groups plus held messages are all parsed messages in order, as many commits are small as polls were empty at most, and fewer than COMMIT_SIZE are held |
| `Persist.ExitCommitsAll` | infrastructure/nomad/scripts/persist.py:174-179 | at an exit the commits together are all parsed messages, in order |
| `Persist.RunningExact` | infrastructure/nomad/scripts/persist.py:163-179 | a worker that goes on has not seen two empty polls in a row |
| `PipelineInvariant.StepKeepsInv` | infrastructure/code/process.py:71-109 | every enabled step of queue, receiver or worker keeps the invariant |
| `PipelineInvariant.InvariantHolds` | infrastructure/nomad/scripts/persist.py:140-200 | so it holds in every state of every run |
| `PipelineInvariant.ReceiverSendKeeps` | infrastructure/code/process.py:99-106 | a send with any failed subset leaves only answered messages to delete |
| `PipelineInvariant.WorkerCommitKeeps` | infrastructure/code/persist.py:190-194 | a commit keeps the database equal to all committed messages loaded one by one |
| `PipelineTheorems.AcceptedIffAcceptStep` | infrastructure/code-ts/src/test_msg.ts:50-56 | the accepted messages are exactly those that an earlier step put into the factor queue |
| `PipelineTheorems.Conservation` | infrastructure/code/process.py:71-109 | in every state an accepted message is in its queue or dead-letter queue, or its result is, or a result of it has been committed |
| `PipelineTheorems.LostIff` | infrastructure/code/persist.py:191-199 | in every state it is unaccounted for exactly when it has left the factor queue, no result is waiting, and every committed result of it was dropped |
| `PipelineTheorems.DroppedIffDrawRepeats` | infrastructure/code/persist.py:89-96 | a committed result is dropped exactly when an earlier one came from a message with the same timestamp field and drew the same bits |
| `PipelineTheorems.ConservationWithFreshKeys` | infrastructure/nomad/scripts/persist.py:140-200 | with fresh keys every accepted message is in a queue or has its row |
| `PipelineTheorems.DrainedIsComplete` | infrastructure/foundation/sqs.tf:1-15 | when queues and dead-letter queue are empty every accepted message has its row |
| `PipelineTheorems.UnreadableIsKept` | infrastructure/code/process.py:88 | in each dialect, a message whose handling raises only ever leaves for the dead-letter queue |
| `PipelineTheorems.EveryRowIsCorrectIff` | infrastructure/code-ts/src/persist.ts:62-116 | every row comes from an accepted message under a key of its send time; it has its factor, scheme and exact divisors if and only if both texts spell numbers, in Python always; otherwise the factor or scheme is null |
| `PipelineTheorems.GeneratedIsRead` | infrastructure/code-ts/src/test_msg.ts:31-38 | what the generator sends is read in both dialects as the numbers it printed |
| `PipelineTheorems.GeneratedRowsAreCorrect` | infrastructure/code-ts/src/test_msg.ts:31-38 | in every state every row of a generated message has its factor, its scheme and exactly the proper divisors, in both dialects |
| `PipelineTheorems.RedeliveryRepeatsResult` | infrastructure/code/process.py:37-64 | all rows of one message tell the same result, however often it was delivered |
| `PipelineTheorems.ReportSelectsPrimes` | infrastructure/code/report.py:52 | the report's rows are those whose factor is a prime number |
| `PipelineTheorems.RowsSortInSendOrder` | infrastructure/code/persist.py:130-139 | keys of messages sent in different milliseconds of one 2^48 window sort in send order |
| `PipelineTheorems.IndexAgreesInEveryState` | infrastructure/code/persist.py:142-149 | in every state the summary describes the committed messages, never undercounts, and equals the table exactly when no key collided |
| `PipelineTheorems.FactorDeleteFollowsSend` | infrastructure/code/process.py:99-109 | in every run a factor delete request comes after a send, not Failed, of that message's result |
| `PipelineTheorems.ResultDeleteFollowsCommit` | infrastructure/nomad/scripts/persist.py:146-149 | in every run a result delete request comes after the commit of that message |
| `PipelineRuns.BatchCanBeDelivered` | infrastructure/code/process.py:71-109 | any batch of up to ten readable messages, whatever is drawn for them, can be carried to the end: queues empty, their results committed in order |
| `PipelineRuns.CollisionLosesMessage` | infrastructure/code/persist.py:191-199 | for any two readable messages with the same timestamp field a run exists in which the second is committed, deleted and has no row |
| `PipelineRuns.LeavesIffReadable` | infrastructure/code-ts/src/process.ts:107-131 | a run in which a message leaves the factor queue exists exactly when handling it raises nothing |
| `PipelineRuns.TextIsStoredAsNull` | infrastructure/code-ts/src/persist.ts:80-90 | for any TypeScript factor text that starts with no number a run exists that deletes the message and stores a row with a null factor and no divisors |
| `PipelineRuns.NumberTexts` | infrastructure/code-ts/src/process.ts:112 | " -12abc" starts with a number; "abc" and "- 1" do not |
| `PipelineOnce.StepKeepsOnce` | infrastructure/code/process.py:71-109 | a step that hands out no message again keeps every message out of a queue with one process or worked off, once |
| `PipelineOnce.AtMostOneResult` | infrastructure/code/process.py:99-109 | in a run without repeated hand-outs no factor message has two results, whatever crashes and failed sends occur |
| `PipelineOnce.AtMostOneCommit` | infrastructure/nomad/scripts/persist.py:140-150 | nor is it committed, and so counted, twice |
| `PipelineOnce.AtMostOneRow` | infrastructure/code/persist.py:191 | nor does it have two rows |
| `PipelineOnce.ExactlyOneRow` | infrastructure/code/persist.py:151-203 | so with fresh keys a drained pipeline has exactly one row for every accepted message |
| `LogBaseline.StoredIsWindow` | infrastructure/observability-dashboard/app.py:457-461 | the stored history is the last min(n, W) snapshots |
| `LogBaseline.WindowExactIff` | infrastructure/observability-dashboard/app.py:460-461 | for every window except 0, and only for those |
| `LogBaseline.LearnsTwiceIff` | infrastructure/observability-dashboard/app.py:463 | `learning` marks exactly the first two polls if and only if the window is at least 2 or is 0 |
| `LogBaseline.GroupExact` | infrastructure/observability-dashboard/app.py:391-398 | each fingerprint holds exactly its lines, in order |
| `LogBaseline.FrequenciesAddUp` | infrastructure/observability-dashboard/app.py:451-456 | the frequencies of a snapshot sum to its line count |
| `LogBaseline.NewExact` | infrastructure/observability-dashboard/app.py:402-412 | new means: occurs now, in no stored snapshot, and some stored snapshot has a fingerprint |
| `LogBaseline.NewPatternOverPolls` | infrastructure/observability-dashboard/app.py:402-420 | the same in terms of the last min(n, W) of all polls |
| `LogBaseline.NewPatternsReported` | infrastructure/observability-dashboard/app.py:411-448 | one `new_pattern` anomaly per new fingerprint and one `frequency_spike` per spiking one |
| `LogBaseline.RecentFrequencies` | infrastructure/observability-dashboard/app.py:435-438 | collects, per fingerprint, its earlier counts in order |
| `LogBaseline.Monitor.ReadBaseline` | infrastructure/observability-dashboard/app.py:402-408 | the first critical section reads the stored window and its fingerprints and volumes |
| `LogBaseline.Monitor.UpdateBaseline` | infrastructure/observability-dashboard/app.py:457-461 | the second keeps, in any interleaving, stored history = window of all commits |
| `LogBaseline.Monitor.Anomalies` | infrastructure/observability-dashboard/app.py:410-448 | reports exactly what the three rules demand |
| `LogBaseline.Monitor.Analyze` | infrastructure/observability-dashboard/app.py:386-471 | one poll: exact report against the earlier polls, and one more snapshot |
| `LogBaseline.EqualSpikesIff` | infrastructure/observability-dashboard/app.py:423-425 | a value equal to all earlier ones spikes exactly when there are two, it is positive and the factor is below 1 |
| `LogBaseline.UnchangingIsQuiet` | infrastructure/observability-dashboard/app.py:410-448 | an unchanging log raises nothing when the factor is at least 1, the log is empty, or fewer than two snapshots are stored |
| `LogBaseline.UnchangingAlarms` | infrastructure/observability-dashboard/app.py:422-431 | in every other case it raises a volume spike, once two snapshots are stored |
| `LogBaseline.UnchangingQuietIff` | infrastructure/observability-dashboard/app.py:410-448 | so these are exactly the cases in which it is quiet |
| `LogBaseline.RoundedIsNearest` | infrastructure/observability-dashboard/app.py:429 | the printed average is the nearest integer, and a tie goes to the even one |
| `Alerts.SelectedExact` | infrastructure/observability-dashboard/app.py:817-828 | a key is selected exactly when urgent and due; only selected keys change their time |
| `Alerts.SelectedOnce` | infrastructure/observability-dashboard/app.py:823-828 | at most once per call, even with duplicates |
| `Alerts.AlertsAreSpaced` | infrastructure/observability-dashboard/app.py:824-828 | over every run the alerts of a key are more than 300 s apart |
| `Alerts.AlertedIff` | infrastructure/observability-dashboard/app.py:813-828 | an urgent key is alerted exactly when more than 300 s have passed since its last alert |
| `Alerts.RateBound` | infrastructure/observability-dashboard/app.py:826 | at most floor(T / 300) + 1 alerts per key in any window of length T |
| `Alerts.KeyInjective` | infrastructure/observability-dashboard/app.py:824 | keys tell problems apart when sources and severities hold no colon |
| `Alerts.Alerter.FireAlerts` | infrastructure/observability-dashboard/app.py:813-831 | each call publishes the selection and advances the cooldowns |
| `History.KeptIsSurviving` | infrastructure/observability-dashboard/app.py:861-870 | for any clock, a problem of a call is kept exactly when it is newer than the cutoffs of that call and all later ones; order of arrival stays |
| `History.PrunedIsFilterIff` | infrastructure/observability-dashboard/app.py:863-869 | the kept list is the filtered complete log exactly when no call brought a problem newer than the last cutoff but not newer than the cutoff of that or a later call |
| `History.PruningRefinesLog` | infrastructure/observability-dashboard/app.py:861-870 | so it is whenever the clock does not run backwards |
| `History.StampProblems` | infrastructure/observability-dashboard/app.py:852-858 | stamps in place exactly the problems without a timestamp |
| `History.Recorder.UpdateHistory` | infrastructure/observability-dashboard/app.py:861-870 | append and prune stamped problems, returning the kept list |
| `Generator.BuildEntries` | infrastructure/code-ts/src/test_msg.ts:28-42 | consecutive Ids from the start index |
| `Generator.BuildBatches` | infrastructure/code-ts/src/test_msg.ts:61-68 | batches of 1 to 10 that concatenate to all entries |
| `Generator.Chunk` | infrastructure/code-ts/src/test_msg.ts:70-73 | chunks of at most MAX_WORKERS that flatten back to the batches |
| `Generator.SendMessages` | infrastructure/code-ts/src/test_msg.ts:58-76 | sends exactly the requested range |
| `Generator.Run` | infrastructure/code-ts/src/test_msg.ts:82-104 | a failure-free run ends having sent Ids 0 to max(INITIAL, LIMIT) - 1 in order, in batches of 1 to 10 |
| `Generator.NumberedOnce` | infrastructure/code-ts/src/test_msg.ts:32 | each Id exactly once |
| `Generator.LoopEndsIff` | infrastructure/code-ts/src/test_msg.ts:93-101 | the top-up loop ends exactly when the limit is reached at once or a top-up is positive |

## Left out

- Queue retention: messages do not expire from a queue.
- Liveness of the pipeline: nothing says that a message is eventually received or a worker restarted.
- Client libraries, credentials, schema creation, queue name resolution and logging: only the effect of the calls on queues and tables is modelled.
- Result texts that are not lists of decimal integers: Python and JSON accept other literals too; the reader treats them as parse errors.
- Integer texts with non-ASCII digits or white space, or of more than 4300 digits in Python: only the ASCII rules of `int` and `parseInt` are modelled.
- JavaScript numbers above 2^53: the TypeScript stages are modelled on exact integers.
- Serialization of the stored JSON document: the document is a record.
- A BATCH_SIZE above 10: the queue rejects such a receive.
- Generator.Run: a failure-free run only; a failed batch makes the source raise, while other requests of its chunk may have been sent.
- Generator.Run: requires a positive top-up unless the initial batch reaches the limit, and a positive MAX_WORKERS unless there is nothing to send, because otherwise the source loops forever.
- LogBaseline.Monitor.Analyze: one poll at a time; the source reads the shared list once more outside its lock for the frequency rule, and computes `learning` from it after releasing the lock, so a concurrent poll of the same task may show up in both. The two critical sections on their own are modelled for any interleaving.
- The fingerprint patterns: `fingerprint` is an arbitrary function; splitting a log into lines happens before the model.
- Alerts.Alerter.FireAlerts: one call at a time; the source guards the cooldowns by no lock, so two concurrent polls may both alert a key. The alert is counted as published even if the topic call fails, as the source has already set the cooldown.
- Suppression rules, the Kubernetes, Nomad, SQS, RDS and CloudWatch checks, the web server, the autoscaler, the security agent and the infrastructure definitions: not part of this model.
