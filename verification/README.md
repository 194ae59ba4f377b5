# Mod-Gearman-Worker: models and proofs

Mod-Gearman-Worker takes checks from Gearman job servers, runs them in a pool of workers that grows and
shrinks with the load, and sends the results back. This project models its five most intricate parts in
Dafny and proves what they are meant to guarantee. Verify it with `dafny verify dfyconfig.toml`.

**Worker pool and ballooning.** `WorkerPool` is a state machine of one epoch of the main loop: a fixed
configuration, an empty pool at the start. Jobs arrive, are decrypted, run, are cancelled, are put into the
background ("ballooning") and finish; connections drop at any moment; the manager goroutine is cut into steps
wherever it starts, registers or stops a worker. `PoolSafety` proves the pool bound, the open-files budget
and the job accounting over all runs, `JobEvents` what each job sends and holds from the events alone, `PoolLimits`
exactly which settings keep the budget and which can crash the manager. `PoolManager` is `manageWorkers` as the imperative code it is, run
against a world that may interfere between any two statements; each state it passes through is reachable in
the machine. `Ballooning` repeats the accounting with nothing atomic but single reads and writes. `OpenFiles`
is the descriptor arithmetic, `JobList` the in-place removal from a worker's job slice.

**Result delivery.** `ResultQueue` and `ResultDelivery` model the shared bounded queue, its consumers with
retry and failover, and the termination handshake, `ResultOrder` the order in which results are handed out and dealt
with. `DupStream` and `DupServer` model the lossy queues of the
duplicate servers, whose consumers share one copied answer and change it; `ListAttributes` is the list
cleaning they rely on.

**Wire format.** `Text`, `Decimal`, `Crypt`, `WireFormat` and `WireRoundTrip` take an answer from its fields
to the wire and back; `JobRequests` is the way of a job to the worker, `WhiteSpace` what is trimmed on it.
The block cipher is any pair of functions in which decryption undoes encryption
(electronic codebook mode, section 6.1 of NIST SP 800-38A); base64 (section 4 of RFC 4648) is any encoder
with a decoder that undoes it.

**Embedded Perl.** `PackageName` is the escaping of plugin paths into package names, `PluginCache` the cache
of compiled plugins, `ErrorText` the cleaning of compilation errors.

**Tables and units.** `ColumnWidths`, `TableText`, `TableCells`, `AsciiTable`, `TableGeometry` and `GearmanTop` size, fill and
print tables; `Units` prints byte counts. `Counting`, `Subsequence` and `Outcomes` hold what
several parts share.

Where the code does not do what its comments or its context promise, the model follows the code, a lemma gives
the input or the run, and another says exactly when the promise holds:

- A balloon is never given back if `select` serves the ticker after the job has already finished
  (`LateTickHappens`, `BalloonAccounting`).
- For 55 to 59 open files truncation toward zero still grants a budget that the base need already exceeds (`LimitIsSoundIff`).
- The pool outgrows `maxWorker` if the clamp leaves it below `minWorker` or the initial start (`PoolBoundIff`), and with
  that the descriptors can run out (`ClampBelowMinimum`, `DescriptorBudgetIff`).
- The check before a balloon and its increment are apart: the budget is overdrawn by up to one less than the
  number of workers, and that happens (`CounterBound`, `BoundAttained`, `BudgetKeptIff`).
- The 90 percent mark divides integers before it multiplies: 95 of 100 busy workers are below it
  (`NinetyFivePercentIsUnderused`, `WatermarkAgreesIff`).
- The manager divides by the size of the pool behind two checks of it, while workers may disconnect
  (`CrashHappens`, `CrashIff`).
- The terminator of the result consumers can be done while a connection is still open, because a request is received
  before anything is closed (`DoneWhileOpen`, `GoneAreServed`).
- A waiting termination request is not always served soon: the select may prefer new results (`RequestCanWait`, `RequestIsServed`).
- A deleted plugin that is newer than the server still runs from the cache, and a compilation error that is false in
  Perl once the exit message is cut out is forgotten (`DeletedPluginRuns`, `SilentFailureIsForgotten`,
  `CacheRefinesRecompiling`). Errors that are strings end in a newline and are never forgotten
  (`FinishedErrorsAreNotSilent`); one that is an object can be.
- Contents changed without a new modification time go unnoticed (`UntouchedChangeIsMissed`, `StaleIff`).
- The escapes of plugin paths have no fixed length. A request in JSON can name a plugin with characters above 255, whose
  escapes take three columns and more, and such a path can share its package with another one (`CharactersCollide`,
  `CollisionIff`, `SharesNameIff`). Among paths of bytes, which other requests name, absolute ones never do
  (`AbsoluteBytesStayApart`).
- A relative plugin path shares its package with the absolute path that reads the same after its slash
  (`TwinsCollide`, `BytesCollisionIff`), a package is emptied with one it lies in (`RefreshWipesIff`), and two paths are compiled
  into the server's own package (`OwnPackageIff`).
- Shrinking a table of seven columns can produce a negative width (`SevenColumnsFail`), and columns of
  equal width that are too wide together divide by zero (`EqualColumnsPanic`); `TableIff` covers both.
- Escaping a table does not escape backslashes: one in front of a bar sets the bar free (`BackslashBarSplits`, `EscapedRowBars`).

The comment beside `OpenFilesExtraPercent` speaks of 30 percent; the constant is 1.2, and so it is in the model.

## Model

| member | source | states |
|---|---|---|
| OpenFiles.ClampMaxWorker | pkg/modgearman/mod_gearman_worker.go:181-189 | the clamped maximum is the configured one if 6 descriptors for each worker and 60 more are available and the limit otherwise, never above what the limit allows; for a need below zero the platform's conversion decides |
| OpenFiles.Linear | pkg/modgearman/mod_gearman_worker.go:181-182 | the rational arithmetic in closed form, for limits on both sides of the base need |
| OpenFiles.LimitIsExact | pkg/modgearman/mod_gearman_worker.go:182 | from 60 descriptors on, n workers are within the limit if and only if 1.2*(5n+50) descriptors are available |
| OpenFiles.LimitIsSoundIff | pkg/modgearman/mod_gearman_worker.go:182 | every granted number of workers fits its descriptors, exactly unless the limit is 55 to 59 |
| WorkerPool.StepKeepsJobs | pkg/modgearman/worker.go:118-192 | every step keeps the job accounting: counters equal the jobs that count, balloons equal the jobs that hold one, results equal the jobs that sent one |
| WorkerPool.RunKeepsJobs | pkg/modgearman/worker.go:118-253 | the job accounting holds after every run of every length |
| WorkerPool.ManageFrame | pkg/modgearman/mainWorker.go:111-246 | managing workers never touches jobs, results, balloons or the counters of existing workers |
| WorkerPool.WatermarkIff | pkg/modgearman/mainWorker.go:219 | the test against the 90 percent mark succeeds if and only if all workers are busy |
| WorkerPool.WatermarkAgreesIff | pkg/modgearman/mainWorker.go:218-219 | it agrees with 90 percent if and only if all are busy or fewer than nine in ten |
| WorkerPool.NinetyFivePercentIsUnderused | pkg/modgearman/mainWorker.go:218-219 | 95 of 100 busy workers count as underused |
| PoolSafety.PoolBoundIff | pkg/modgearman/mainWorker.go:111-246 | the pool stays within maxWorker in every reachable state, if and only if maxWorker is non-negative and at least minWorker and the initial start |
| PoolSafety.RunKeepsPool | pkg/modgearman/mainWorker.go:144-204 | the pool never outgrows a bound that the settings respect: the manager's remaining starts always fit the room that is left, even when workers unregister in between |
| PoolSafety.FillUp | pkg/modgearman/mainWorker.go:144-149 | the filling loop starts as many workers as it counted at its beginning, whatever maxWorker says |
| PoolSafety.BalloonsWithinBudget | pkg/modgearman/worker.go:210-239 | over every run the balloon counter stays between zero and what the clamped pool leaves of the worker limit |
| PoolSafety.DescriptorBudget | pkg/modgearman/mod_gearman_worker.go:181-189 | in every reachable state registered workers and balloons together stay within the worker limit, and their descriptors within the open-files limit |
| PoolSafety.ActiveJobsExact | pkg/modgearman/worker.go:124-159 | in every reachable state a worker's activeJobs is the number of its jobs that are neither finished nor rejected, so each exit decrements once |
| PoolSafety.OnePrimaryResult | pkg/modgearman/worker.go:242-253 | each executed job has sent exactly one primary result if it has a result queue and is not cancelled; no job sends two, none without a queue sends one |
| PoolSafety.CanceledStaysSilent | pkg/modgearman/worker.go:242-253 | no step makes a cancelled job send a result |
| JobEvents.ResultIff | pkg/modgearman/worker.go:242-252 | from the events of a run alone: a job has sent one result if it was accepted with a result queue and executed later with no cancellation before that, and none otherwise |
| JobEvents.ActiveFromEvents | pkg/modgearman/worker.go:118-192 | from the events alone: a worker's activeJobs is the number of jobs that arrived there and were neither rejected nor ended |
| JobEvents.WatchedIff | pkg/modgearman/worker.go:195-206 | accepting a job puts it under the watch of the backgrounding ticker, if and only if backgrounding is on and utilization is at least 70 |
| JobEvents.BalloonsFromEvents | pkg/modgearman/worker.go:154-239 | from the events alone: the balloon counter is the number of jobs for which a tick was served with load, memory, utilization of at least 70 and the budget permitting, and which have not ended since |
| PoolSafety.LeaksAreLateTicks | pkg/modgearman/worker.go:172-190 | balloons that are never given back are in number exactly the ticks served after their job was done |
| PoolSafety.BalloonAccounting | pkg/modgearman/worker.go:154-190 | the balloon counter is the number of unfinished ballooned jobs plus the late ticks of the run |
| PoolSafety.LateTickHappens | pkg/modgearman/worker.go:172-190 | a run from the empty pool after which all jobs are done and one balloon is still taken |
| PoolSafety.CrashHappens | pkg/modgearman/mainWorker.go:210-221 | a run in which the only worker disconnects between the checks of the pool's size and the division by it |
| PoolLimits.CrashIff | pkg/modgearman/mainWorker.go:111-246 | some run makes the manager divide by zero, if and only if the initial start, or spawning towards maxWorker, can take the pool above both zero and minWorker |
| PoolLimits.BudgetIff | pkg/modgearman/worker.go:210-239 | registered workers and balloons stay within the worker limit in every reachable state, if and only if the pool cannot outgrow maxWorker (with ballooning) or the limit itself (without) |
| PoolLimits.DescriptorBudgetIff | pkg/modgearman/mod_gearman_worker.go:181-189 | the same for the descriptors they need, whatever the clamp has left of maxWorker |
| PoolLimits.ClampBelowMinimum | pkg/modgearman/mod_gearman_worker.go:181-189 | with 100 descriptors and a minimum of twenty, six workers are granted and twenty started |
| PoolManager.RunKeepsKnown | pkg/modgearman/mainWorker.go:434-460 | every registered worker was created before, and a worker about to be registered is not registered yet |
| PoolManager.MainWorker.constructor | pkg/modgearman/mainWorker.go:57-74 | a new main worker is in the machine's initial state |
| PoolManager.MainWorker.Interfere | pkg/modgearman/mainWorker.go:434-443 | whatever other goroutines do, the state stays reachable and the pool can only shrink under the manager |
| PoolManager.MainWorker.CountActive | pkg/modgearman/mainWorker.go:124-131 | the loop over the pool counts exactly the workers with running jobs |
| PoolManager.MainWorker.NewWorker | pkg/modgearman/worker.go:25-77 | a start either makes a new, idle, unregistered worker or changes nothing but the manager's position |
| PoolManager.MainWorker.RegisterWorker | pkg/modgearman/mainWorker.go:445-460 | registering adds exactly the new worker |
| PoolManager.MainWorker.StartOne | pkg/modgearman/mainWorker.go:146-148 | starting one worker adds at most one; exactly one when undisturbed and successful |
| PoolManager.MainWorker.FillUpTo | pkg/modgearman/mainWorker.go:144-149 | undisturbed and without failed starts the pool ends exactly at the wanted minimum, or as it was if that is smaller; only idle workers are added and nobody is stopped |
| PoolManager.MainWorker.StopOneIdle | pkg/modgearman/mainWorker.go:237-243 | finds an idle worker and shuts it down; undisturbed exactly one, of the idle ones, if there is any |
| PoolManager.MainWorker.AdjustWorkerBottomLevel | pkg/modgearman/mainWorker.go:210-246 | divides by zero only if workers disconnect meanwhile; undisturbed the number removed, only of idle workers, is the least of the rate, the surplus over minWorker and the idle ones if the pool is too large, not all are busy and it has been idle long enough, and else zero; the rate is sinkRate if positive, else spawnRate if positive, else zero |
| PoolManager.MainWorker.CheckBottomLevel | pkg/modgearman/mainWorker.go:210-231 | the guards one by one; undisturbed, workers are stopped if and only if the pool exceeds zero and the minimum, not all are busy and it has been idle long enough |
| PoolManager.MainWorker.CheckUse | pkg/modgearman/mainWorker.go:218-226 | the division by the pool's size fails if and only if the pool is empty by then |
| PoolManager.MainWorker.Sink | pkg/modgearman/mainWorker.go:232-245 | undisturbed: stops only idle workers, exactly the least of its count, the surplus over minWorker and the number of idle workers |
| PoolManager.MainWorker.AdjustWorkerTopLevel | pkg/modgearman/mainWorker.go:172-207 | undisturbed and without failed starts: the new size is the old one plus the spawn rate, at most maxWorker, if all are busy and load and memory permit, and else the old one |
| PoolManager.MainWorker.Spawn | pkg/modgearman/mainWorker.go:196-204 | undisturbed and without failed starts: the new size is the old one plus its count, or maxWorker if that comes first |
| PoolManager.MainWorker.Measure | pkg/modgearman/mainWorker.go:124-142 | counts the pool and its busy workers and picks the initial start over the minimum when one is given |
| PoolManager.MainWorker.ComputeUtilization | pkg/modgearman/mainWorker.go:151-155 | the utilization is the percentage of busy workers rounded down, and zero for an empty pool |
| PoolManager.MainWorker.ManageWorkers | pkg/modgearman/mainWorker.go:111-169 | a whole tick is a piece of a run of the machine, so within maxWorker, and crashes only if disturbed; undisturbed and without failed starts its final size is computed from the settings, the size and the busy workers; it removes at most the rate in the settings, and only idle workers |
| Ballooning.StepKeeps | pkg/modgearman/worker.go:154-190 | with check, increment, flag and release apart, every step keeps the counter equal to the balloons held and pending checks within the workers |
| Ballooning.CounterExact | pkg/modgearman/worker.go:154-190 | under every interleaving the counter is unfinished ballooned jobs plus flags still to be set plus leaked balloons, so never below the unfinished ones |
| Ballooning.CounterBound | pkg/modgearman/worker.go:210-239 | under every interleaving the counter stays at or below budget - 1 + workers |
| Ballooning.BoundAttained | pkg/modgearman/worker.go:178-186 | for every positive budget and number of workers some run attains that bound |
| Ballooning.BudgetKeptIff | pkg/modgearman/worker.go:172-190 | over all runs the counter keeps the budget, if and only if there is at most one worker |
| Ballooning.PendingAtMostWorkers | pkg/modgearman/worker.go:172-190 | with one foreground job per worker no more checks are pending than workers exist |
| Ballooning.BalloonsWereAllowed | pkg/modgearman/worker.go:172-186 | over every run, a job whose check has passed or that has a balloon was given a check that answered yes |
| JobList.Worker.AddJob | pkg/modgearman/worker.go:328-332 | appends the request, in place or in a fresh array, and keeps the list free of duplicates |
| JobList.Worker.Cut | pkg/modgearman/worker.go:338 | moves the tail down in the same array and leaves the last slot as it was |
| JobList.Worker.RemoveJob | pkg/modgearman/worker.go:334-342 | ranging over the old slice header while the array shifts removes exactly the request, keeps the order of the rest, and never cuts twice or out of range |
| JobList.StaleSlotIsHarmless | pkg/modgearman/worker.go:334-342 | after one cut no later slot of the old header shows the request again |
| ResultQueue.StepConserves | pkg/modgearman/resultserver.go:62-141 | every step keeps the multiset of enqueued results equal to queued, in hand, delivered, given up and abandoned |
| ResultQueue.StepOwns | pkg/modgearman/resultserver.go:89-136 | every step keeps the open connections equal to the ones the consumers carry, each carried once |
| ResultQueue.StepProgresses | pkg/modgearman/resultserver.go:52-136 | every step keeps retry counts in range and exactly the served consumers gone |
| ResultQueue.RunKeeps | pkg/modgearman/resultserver.go:21-141 | all three hold after every run |
| ResultDelivery.Conservation | pkg/modgearman/resultserver.go:62-141 | in every reachable state each enqueued result is in exactly one place, and the queue holds at most 1000 |
| ResultDelivery.QueueFills | pkg/modgearman/resultserver.go:37 | while nobody takes any, up to 1000 results are queued in their order, and one more has to wait exactly when there are 1000 |
| ResultOrder.FirstInFirstOut | pkg/modgearman/resultserver.go:62-141 | over every run, the results handed out to consumers in their order, followed by the queue, are the results enqueued in their order |
| ResultOrder.OneByOne | pkg/modgearman/resultserver.go:62-136 | over every run, each consumer is done with its results in the order in which it took them, and holds at most the last one |
| ResultOrder.SingleConsumerKeepsOrder | pkg/modgearman/resultserver.go:62-141 | with one consumer, results are delivered, given up and abandoned in the order of enqueuing |
| ResultOrder.DoneIsCounted | pkg/modgearman/resultserver.go:94-127 | a consumer lets go of a result only by sending it, after a pass with more than 120 retries, or by a termination request, and it is counted as exactly that |
| ResultDelivery.AcknowledgedOnce | pkg/modgearman/resultserver.go:94-110 | a result enqueued once is delivered at most once and never also given up or abandoned |
| ResultDelivery.Ownership | pkg/modgearman/resultserver.go:89-136 | the open connections are exactly those the consumers carry, no two share one, and an exited consumer has none |
| ResultDelivery.GoneAreServed | pkg/modgearman/resultserver.go:52-127 | exactly the consumers that received their request are gone; when the terminator is done all are, and the connections still open are exactly those that leaving consumers have yet to close |
| ResultDelivery.LeavingIsARequest | pkg/modgearman/resultserver.go:62-127 | a consumer leaves exactly in a step that hands it a request, and that step hands over one request |
| ResultDelivery.LeavingEnds | pkg/modgearman/resultserver.go:67-72 | a leaving consumer can only close its connection, if it has one, and then return; it takes, sends and opens nothing |
| ResultDelivery.DoneWhileOpen | pkg/modgearman/resultserver.go:52-72 | a reachable state in which the terminator is done while a connection is open |
| ResultDelivery.SendingEnds | pkg/modgearman/resultserver.go:89-136 | a rank falls with each step of a sending consumer and is untouched by everyone else, so sending always ends |
| ResultDelivery.RequestIsServed | pkg/modgearman/resultserver.go:62-131 | while the terminator waits for a consumer, its own steps are at most the rest of its pass and one pass for each result in the queue or newly enqueued, whatever the others do; in each select it can be served, and before that it can move |
| ResultDelivery.RequestCanWait | pkg/modgearman/resultserver.go:66-73 | without a bound on new results there is none on the wait: for every n the select can prefer n results to the request |
| ResultDelivery.AskedWhileIdle | pkg/modgearman/resultserver.go:52-73 | and that situation is reachable |
| ResultDelivery.Process.SendAnswer | pkg/modgearman/client.go:37-55 | one address: delivered with the connection kept, or not delivered and no connection left |
| ResultDelivery.Process.TryServers | pkg/modgearman/resultserver.go:95-110 | one pass stops at the first server that takes the result, and otherwise ends behind the last one with no connection left |
| ResultDelivery.Process.SendResult | pkg/modgearman/resultserver.go:89-136 | returns after at most 122 passes, after exactly 122 if it gave up; the result is delivered, given up or abandoned according to the flags returned, whatever the other goroutines do |
| ResultDelivery.Process.ServeOnce | pkg/modgearman/resultserver.go:62-87 | one round of a consumer ends idle, or exited with its connection closed because it was asked to |
| Subsequence.SubOrder | pkg/modgearman/dupserver.go:69-80 | what being a subsequence means: two elements of the shorter list occur in the longer one in the same order |
| DupStream.StepKeeps | pkg/modgearman/dupserver.go:49-110 | every step keeps what was accepted a subsequence of what was offered, short of it by exactly the dropped offers |
| DupStream.SameAccepted | pkg/modgearman/dupserver.go:53-80 | taking, sending, retrying and terminating move what was accepted along without adding, losing or reordering any of it |
| DupStream.OrderAndLoss | pkg/modgearman/dupserver.go:49-110 | per address, delivered, lost at termination, in hand and queued are in that order a subsequence of the offers, shorter by the number of offers to a full queue; at most one item is lost in hand, and only by termination |
| DupStream.LostAfterFailure | pkg/modgearman/dupserver.go:62-80 | over every run, a result is lost in the hand of a consumer only if an attempt to send has failed before |
| DupStream.ExactlyKept | pkg/modgearman/dupserver.go:49-110 | they are exactly the offers that did not find a full queue, in their order |
| DupStream.LosslessWhileRoom | pkg/modgearman/dupserver.go:98-109 | if the queue was never full, nothing is missing and nothing is reordered |
| DupServer.RegisterLast | pkg/modgearman/dupserver.go:18-34 | the consumer map holds the last launched consumer of each address |
| DupServer.AllReachedIff | pkg/modgearman/dupserver.go:36-47 | termination reaches every launched consumer, if and only if no address is listed twice |
| DupServer.CleanListReachesAll | pkg/modgearman/configuration_parser.go:129-135 | with the cleaned list every consumer is reached and every lookup by address succeeds |
| DupServer.DupServers.constructor | pkg/modgearman/dupserver.go:18-34 | one empty stream per address, in the registered order |
| DupServer.DupServers.Enqueue | pkg/modgearman/dupserver.go:92-110 | offers one fresh copy to every address without waiting for any; the primary answer is only read |
| DupServer.DupServers.SendDup | pkg/modgearman/dupserver.go:84-90 | marks the shared copy passive if configured, changes no other answer, and what goes out is passive then |
| DupServer.DupServers.Others | pkg/modgearman/dupserver.go:49-110 | over any interleaving of enqueuing and of all consumers no primary answer changes, copies change only to passive and only if configured, and a consumer left alone keeps its item and only gains offers |
| DupServer.DupServers.Deliver | pkg/modgearman/dupserver.go:59-82 | however often sending fails and whatever happens in between, the item at the head of the queue is the next that this address is sent, it is sent once, and passive if configured |
| DupServer.DupServers.TerminateAll | pkg/modgearman/dupserver.go:36-47 | every consumer receives its request and holds nothing more, and nothing that was accepted changes its place in the order |
| DupServer.PrimaryStaysActive | pkg/modgearman/worker.go:242-253 | the copy that is written to may be the very item sent next: the primary stays as it was, and into an empty queue its copy is what the address is sent, passive if configured |
| ListAttributes.CleanListAttribute | pkg/modgearman/configuration_parser.go:480-492 | the loop over the seen-map computes the cleaned list |
| ListAttributes.CleanIsUnique | pkg/modgearman/configuration_parser.go:480-492 | the cleaned list has every non-empty entry exactly once, in the original order |
| ListAttributes.CleanStays | pkg/modgearman/configuration_parser.go:480-492 | cleaning changes nothing if and only if there was nothing to clean |
| Text.EscapeJoinsLines | pkg/modgearman/readAndExecute.go:65 | escaped output is the lines of the output with a backslash and an n between them |
| Text.TrimIsMiddle | pkg/modgearman/decrypt.go:177-178 | every text is its trimmed text between blanks |
| Text.LinesJoin | pkg/modgearman/decrypt.go:169 | the lines of a text joined by newlines are that text |
| Decimal.ValueOfDigits | pkg/modgearman/readAndExecute.go:63 | printed numbers read back as themselves |
| Decimal.ItoaReadsBack | pkg/modgearman/readAndExecute.go:63 | and so do negative ones, with their sign |
| Crypt.FillBuffer | pkg/modgearman/encrypt.go:32-36 | the loop over slices of the buffer applies the cipher to each block in place |
| Crypt.BlockAt | pkg/modgearman/encrypt.go:32-36 | each block of the result is the cipher of the block in the same place |
| Crypt.PadData | pkg/modgearman/encrypt.go:24-30 | the padding loop appends the fewest newlines that complete the last block |
| Crypt.Encrypt | pkg/modgearman/encrypt.go:19-39 | the whole of encrypt, against its specification |
| Crypt.Decrypt | pkg/modgearman/decrypt.go:103-123 | the whole of decrypt, an error for incomplete blocks |
| Crypt.BlockwiseInverse | pkg/modgearman/decrypt.go:118-120 | decrypting block by block undoes encrypting block by block, for data of any number of blocks |
| Crypt.DecryptEncrypted | pkg/modgearman/encrypt.go:19-39 | for all data, decryption gives the padded plain text back |
| WireFormat.CreateMap | pkg/modgearman/decrypt.go:167-186 | the parsing loop stores line after line |
| WireFormat.NoLineNoChange | pkg/modgearman/decrypt.go:167-186 | a key that occurs in no line is not touched |
| WireFormat.LastLineWins | pkg/modgearman/decrypt.go:167-186 | a key's value is the trimmed value of its last line |
| JobRequests.LastFieldWins | pkg/modgearman/decrypt.go:167-186 | in whatever order the fields of a job stand, a key has the trimmed value of its last field |
| JobRequests.ReceivedFields | pkg/modgearman/decrypt.go:129-153 | for every text: rejected exactly without its mark at the front; otherwise each of the ten members of the request is the value of the last line with its own key, parsed where it is a number, and empty or zero if no line has the key |
| JobRequests.NoValueIsZero | pkg/modgearman/decrypt.go:155-162 | a time or number that no line gives is zero |
| JobRequests.EncryptedJob | pkg/modgearman/decrypt.go:70-123 | every job made of lines, encrypted, arrives as the request that those lines say |
| JobRequests.PlainJob | pkg/modgearman/decrypt.go:70-123 | every job made of lines, not encrypted, arrives as the request that its kept lines say: without the white space at its very end, which is nothing if its last line does not end in any |
| WhiteSpace.SpaceRuneIff | pkg/modgearman/decrypt.go:105 | what counts as white space is the UTF-8 of exactly the code points that Unicode calls white space |
| WhiteSpace.TrimSpaceIsMiddle | pkg/modgearman/decrypt.go:105 | every text is its trimmed text between two runs of white space characters, and none is left at either end |
| WireRoundTrip.PrintIsLines | pkg/modgearman/readAndExecute.go:40-69 | the printed answer is a list of key=value lines, the optional ones included exactly when they are set |
| WireRoundTrip.FrontMap | pkg/modgearman/decrypt.go:167-186 | parsing the printed lines gives the printed keys with their values |
| WireRoundTrip.MapOfText | pkg/modgearman/decrypt.go:167-186 | blank lines from the padding do not disturb the parsed map |
| WireRoundTrip.EncryptedRoundTrip | pkg/modgearman/encrypt.go:9-39 | for every answer with one-line fields, decoding the created answer gives exactly the printed keys with their trimmed values, and the output in escaped form |
| WireRoundTrip.PlainRoundTrip | pkg/modgearman/decrypt.go:103-123 | the same without encryption, where the end of the output also loses its white space, Unicode white space included |
| WireRoundTrip.EncryptedExactIff | pkg/modgearman/decrypt.go:70-88 | every field arrives exactly as printed, if and only if the one-line fields have no newline or outer blank and the escaped output no outer blank |
| WireRoundTrip.PlainExactIff | pkg/modgearman/decrypt.go:70-88 | the exact condition without encryption |
| WireRoundTrip.StoredIsClean | pkg/modgearman/decrypt.go:176-182 | no received value ever has a newline or an outer blank, whatever was sent |
| WireRoundTrip.PrintedValues | pkg/modgearman/readAndExecute.go:40-69 | each field is printed under its own key, the optional keys exactly when their field is set |
| WireRoundTrip.RequestFields | pkg/modgearman/decrypt.go:129-153 | the receiver accepts every answer that is exact and reads type, host, service and start time back; the core start time is printed under another key than the one read |
| PackageName.ValidPackageName | mod_gearman_worker_epn.pl:371-381 | for every path of characters: the three substitutions and the prefix chosen from their result give the name that one scan gives; the canonical form of the path can be read off it; a component starts with a digit exactly if a relative path does |
| PackageName.TwoPasses | mod_gearman_worker_epn.pl:373-376 | the two escaping passes are one scan: the second finds nothing that the first made, whatever the length of its escapes |
| PackageName.EscapeColumns | mod_gearman_worker_epn.pl:373 | a byte is escaped to an underscore and its two hexadecimal digits, a leading zero left blank |
| PackageName.StaysIff | mod_gearman_worker_epn.pl:373-376 | the substitutions before the slashes leave a path as it is, if and only if it consists of letters, slashes, and digits that no slash precedes |
| PackageName.PathOfPackage | mod_gearman_worker_epn.pl:371-381 | undoing the name gives every path back in its canonical form, made absolute; a path of bytes is its own canonical form |
| PackageName.AbsoluteBytesStayApart | mod_gearman_worker_epn.pl:371-381 | different absolute paths of bytes get different package names |
| PackageName.CollisionIff | mod_gearman_worker_epn.pl:371-381 | over all paths, two absolute or two relative ones share a name if and only if their canonical forms agree; a relative and an absolute one, if and only if they do with a slash in front of the relative one and no digit comes first |
| PackageName.BytesCollisionIff | mod_gearman_worker_epn.pl:371-381 | over paths of bytes, two share a name if and only if one is the other behind a slash and no digit comes first |
| PackageName.SharesNameIff | mod_gearman_worker_epn.pl:371-381 | exactly which absolute paths share their name with another: those with a character of more digits than are read back, and those with an escaped character and hexadecimal digits behind it that make the code of another character |
| PackageName.CharactersCollide | mod_gearman_worker_epn.pl:373 | two pairs of different absolute paths with the same name, one of each pair with a character above 255 |
| PackageName.BothCanonical | mod_gearman_worker_epn.pl:373-376 | a path and its canonical form are escaped to the same |
| PackageName.TwinsCollide | mod_gearman_worker_epn.pl:379-380 | a relative path shares its name with its absolute twin exactly unless it starts with a digit |
| PackageName.ComponentsIff | mod_gearman_worker_epn.pl:375-376 | no component of the name starts with a digit, exactly unless a relative path does |
| PackageName.NestedIff | mod_gearman_worker_epn.pl:371-381 | the package of an absolute path lies inside the package of another, if and only if its canonical form lies below the other's; for paths of bytes, if and only if the path does |
| PackageName.OwnPackageIff | mod_gearman_worker_epn.pl:359-381 | exactly the paths /Persistent and Persistent, among all, are compiled into the package of the server's own code |
| PluginCache.Embed.Recompile | mod_gearman_worker_epn.pl:406-470 | the entry is dated, the package emptied, and the slots filled as compiling demands |
| PluginCache.Embed.EvalFile | mod_gearman_worker_epn.pl:384-471 | new cache, packages and answer of a call, hit or miss |
| PluginCache.StepKeeps | mod_gearman_worker_epn.pl:384-471 | every edit and every call keeps each entry at least as old as its file and, if equally old, in step with its contents |
| PluginCache.CacheRefinesRecompiling | mod_gearman_worker_epn.pl:384-471 | after any run of edits and calls with honest modification times, a call answers what compiling afresh would, up to captured output, exactly unless it hits an entry while the file is gone or fails to compile with an error that ends up false in Perl |
| PluginCache.FinishedErrorsAreNotSilent | mod_gearman_worker_epn.pl:456-463 | if errors end in a newline, as those of die do, only a deleted plugin is answered differently |
| PluginCache.UncachedRecompiles | mod_gearman_worker_epn.pl:388-430 | over runs without the cache, with any modification times, every call answers what compiling afresh does |
| PluginCache.CachedHits | mod_gearman_worker_epn.pl:388-430 | with the cache, a call is followed by a hit for the same file, exactly unless the file is as old as the server and was no hit before |
| PluginCache.RunFills | mod_gearman_worker_epn.pl:384-471 | after any run whatever, with any modification times, each entry is what the last compilation of its path left, and its handler that of the last that succeeded |
| PluginCache.StaleIff | mod_gearman_worker_epn.pl:388-398 | with any modification times, a hit on a plugin that compiled is right if and only if its contents are those that were compiled; one that failed, if and only if it still fails with text that begins the same; one that failed silently, if and only if its contents are those that compiled before that |
| PluginCache.PluginsStayApart | mod_gearman_worker_epn.pl:371-471 | over any run that calls absolute paths, none covering another, the package of each plugin whose last compilation succeeded holds that plugin's own handler |
| PluginCache.RefreshWipesIff | mod_gearman_worker_epn.pl:430-436 | compiling one absolute path leaves the package of another as it was, if and only if they do not share one and the other's does not lie inside; for paths of bytes, if and only if the other does not lie below |
| PluginCache.DeletedPluginRuns | mod_gearman_worker_epn.pl:388-398 | a run after which a deleted plugin still answers from the cache |
| PluginCache.UntouchedChangeIsMissed | mod_gearman_worker_epn.pl:388-390 | a run in which contents change without the modification time, and the old handler answers |
| PluginCache.SilentFailureIsForgotten | mod_gearman_worker_epn.pl:456-463 | a run in which a failure is forgotten: its error is an exit message without a newline at its end |
| ErrorText.FinishedStaysTrue | mod_gearman_worker_epn.pl:456-459 | the substitution never reaches a final newline, so an error that ends in one stays true |
| ErrorText.NothingToCut | mod_gearman_worker_epn.pl:458 | an error without a trapped exit message is not changed |
| ErrorText.MessageIs | mod_gearman_worker_epn.pl:458 | what is cut is a match of the pattern, part by part |
| ErrorText.MessageFound | mod_gearman_worker_epn.pl:458 | every match of the pattern at the front is found, and the shortest is cut |
| ErrorText.CleanedByLines | mod_gearman_worker_epn.pl:458 | line by line: a message at the front of a line goes, the rest of its last line stays, whatever stands there, and the next line is cleaned alike |
| ErrorText.BareMessageVanishes | mod_gearman_worker_epn.pl:458 | an exit message and nothing else leaves the empty string |
| ColumnWidths.ShrinkExact | pkg/utils/asciiTable.go:136-148 | the shrunk widths are non-negative, if and only if the room left plus the number of wide columns is positive; with no negative room the line is at most 120 and short of it by less than the number of wide columns |
| ColumnWidths.ShrinkFits | pkg/utils/asciiTable.go:126-148 | with up to six columns, one above the average, widths are non-negative and the line at most 120, exactly 120 with one wide column |
| ColumnWidths.NarrowColumns | pkg/utils/asciiTable.go:126-144 | the columns that are not too wide take at most the average and their padding |
| ColumnWidths.SevenColumnsFail | pkg/utils/asciiTable.go:145-148 | seven columns for which the division gives a negative width |
| ColumnWidths.EqualColumnsPanic | pkg/utils/asciiTable.go:145 | six equal columns for which the divisor is zero |
| TableText.NaturalIsLeast | pkg/utils/asciiTable.go:102-124 | a column's natural size is the least width into which its name and all its cells fit |
| TableText.AlignedWidth | pkg/utils/asciiTable.go:56-70 | a left, right or centred cell is as wide as its column exactly when its text fits, and never narrower |
| TableCells.AlignedShows | pkg/utils/asciiTable.go:56-63 | a value that fits stands at the right end of a right-aligned cell, at the left end of a left-aligned one, and in the middle of a centred one, with the odd blank at its right; all the rest is blank |
| TableText.RowGeometry | pkg/utils/asciiTable.go:50-72 | a data row is as wide as the columns exactly when each of its cells fits, whatever the alignments |
| TableCells.RowParts | pkg/utils/asciiTable.go:50-72 | each cell of a row stands in its own column, and is its own attribute aligned by its own header |
| TableCells.HeaderParts | pkg/utils/asciiTable.go:33-36 | each name stands at the left of its own column |
| TableCells.SeparatorParts | pkg/utils/asciiTable.go:39-46 | each part of the separator is a rule as wide as its column, between colons if it is centred and blanks otherwise |
| TableCells.ColumnShows | pkg/utils/asciiTable.go:30-76 | where all fit, the name of a column and under it the row's attribute stand between the same two positions |
| TableText.HeaderGeometry | pkg/utils/asciiTable.go:32-50 | the separator is always as wide as the columns, the header line exactly when the names fit |
| TableText.EscapeIsOnePass | pkg/utils/asciiTable.go:92-97 | the four replacements one after the other are one replacement of each character: none undoes or repeats another |
| TableText.CellIsEscaped | pkg/utils/asciiTable.go:79-100 | a cell is the escaped text of its attribute, and empty without one |
| TableText.EscapeReadsBack | pkg/utils/asciiTable.go:92-97 | a text without backslashes can be read back from its escaped form |
| TableText.EscapeMarks | pkg/utils/asciiTable.go:92-97 | in an escaped text every bar, dollar and asterisk has a backslash in front |
| TableText.EscapedRowBars | pkg/utils/asciiTable.go:50-100 | an escaped row is one line; for a reader who pairs backslashes it has one bar per column, the closing one, and one for each bar that a cell has behind an odd run of backslashes, so its columns come apart if and only if no cell has such a bar |
| TableText.EscapedBars | pkg/utils/asciiTable.go:92-97 | escaping any text leaves free exactly the bars behind odd runs of backslashes |
| TableText.BackslashBarSplits | pkg/utils/asciiTable.go:92-97 | the cell with a backslash and a bar, whose bar stays free |
| AsciiTable.WidenByRow | pkg/utils/asciiTable.go:109-123 | one row widens the columns in place to its cells, or is refused if it is no struct or has an attribute that is no string |
| AsciiTable.CalculateHeaderSize | pkg/utils/asciiTable.go:102-151 | the in-place loops fail exactly on bad rows, divide by zero exactly when no column is above the average, and else leave the final sizes in the header and nothing else changed |
| AsciiTable.ASCIITable | pkg/utils/asciiTable.go:19-77 | the text, the error or the run-time panic that the header and the rows determine, and the sizes left in the header |
| TableGeometry.OneLinePerRow | pkg/utils/asciiTable.go:30-76 | split at its newlines, an escaped table has one line for the header, one for the separator and one per row, whatever the cells hold |
| TableGeometry.RectangleIff | pkg/utils/asciiTable.go:30-76 | all lines have length sum(size+3)+1 if and only if every name and every cell fits |
| TableGeometry.FitsIffNatural | pkg/utils/asciiTable.go:102-151 | everything fits if and only if no column is below its natural size |
| TableGeometry.UnshrunkRectangle | pkg/utils/asciiTable.go:19-77 | a table under 120 characters is a rectangle of its natural sizes |
| TableGeometry.TableIff | pkg/utils/asciiTable.go:19-77 | for all headers and rows: an error exactly for a bad row, or for an alignment other than the four if there are rows and the sizes can be found; a panic exactly if they cannot; a table otherwise. They can be found if and only if the table is narrow enough, or has a column above the average and the room for such columns is not further below zero than their number |
| GearmanTop.TopSizes | pkg/modgearman/gearman_top.go:245-308 | for every list of queues with 64-bit numbers the sizes are defined, an over-wide table shrinks its name column alone, and comes out at exactly 120 |
| GearmanTop.NumberColumns | pkg/modgearman/gearman_top.go:296-308 | the number columns are 12 to 20 characters wide for every 64-bit number |
| GearmanTop.TopAlwaysRenders | pkg/modgearman/gearman_top.go:245-251 | the table of queues is never an error and never panics |
| GearmanTop.CalcTableSize | pkg/modgearman/gearman_top.go:260-268 | adds up the sizes that the table left in the header |
| GearmanTop.CreateTable | pkg/modgearman/gearman_top.go:245-258 | always a table, under and above borders computed from the header that was resized in place |
| GearmanTop.DisplayIsLines | pkg/modgearman/gearman_top.go:245-258 | the display is the border, the lines of the table and the border, whatever the queues are called |
| GearmanTop.ScreenShows | pkg/modgearman/gearman_top.go:245-308 | for every list of queues, shrunk or not: the name and the three numbers of each queue whose name fits stand under their own headings, the name at the left, the numbers at the right |
| GearmanTop.ScreenGeometry | pkg/modgearman/gearman_top.go:245-268 | the border is at most 121 wide, and all lines are as wide as it if and only if the natural width is at most 120 |
| Units.Bytes2Human | pkg/modgearman/mainWorker.go:617-629 | for every 64-bit count the loop ends on the power of 1024 that brackets it, with the suffix of that power, each of the six for its own range, and the divisor fits a signed 64-bit integer |
| Units.ExponentUnique | pkg/modgearman/mainWorker.go:617-629 | that power is determined by the count |
| Units.NestedDivision | pkg/modgearman/mainWorker.go:621-626 | dividing again and again is dividing once by the product |

## Left out

- OpenFiles.ClampMaxWorker: does not model floating-point rounding (the arithmetic is exact over reals), and leaves the conversion of a negative float to an unsigned integer to a parameter, as the platform decides it.
- PoolManager.MainWorker.Measure: the size of the pool and all its busy workers are read in one step, while the code reads them one after the other.
- PoolManager.MainWorker.ManageWorkers: load, memory, idle time and server status are inputs; the workers are numbers with their counters in one sequence, not objects; claims about the pool's size are for an undisturbed tick.
- WorkerPool.StepKeepsJobs: the ticker branch and the end of a goroutine are one step each; `Ballooning` splits them but has no inline jobs and no activeJobs.
- Ballooning.CounterBound: for a fixed set of workers, one foreground job each.
- JobList.Worker.RemoveJob: for lists without duplicates, which is how the code fills them.
- ResultDelivery.SendingEnds: says that the steps end, not that the scheduler takes them; closing by the peer is not modelled.
- ResultDelivery.GoneAreServed: does not promise that all consumers have returned and no connection is open when the terminator is done, because the code does not keep that; the loop of `terminateResultServerConsumers` is part of the machine, not a method of its own.
- DupServer.DupServers.Enqueue: after termination the consumer map is nil and a lookup panics; the model ends before.
- DupServer.DupServers.Deliver: the connection a duplicate consumer holds, which it does not always close, is not modelled.
- PluginCache.CacheRefinesRecompiling: file ages are whole numbers instead of fractions of days; compiling is a function of path and contents; the text of a system error is a parameter.
- PluginCache.PluginsStayApart: what becomes of the server after its own package has been emptied is not modelled.
- WireFormat.CreateMap: one char stands for one byte.
- WireRoundTrip.RequestFields: printing and parsing of numbers are parameters, so rounding to six decimals is not modelled.
- AsciiTable.ASCIITable: widths are those of ASCII text, where bytes and runes agree; the error texts are not modelled, nor the limit of a million on a width in a format.
- One epoch only: reload, restart and shutdown of the main loop, where workers no longer unregister.
- `checkMemory`, `checkLoads`, the number of result servers and the status worker: arithmetic on one line, or I/O.
- Sockets, the Gearman library, spawning and killing of processes, `/proc`, files, logs and metrics: their outcomes are the free choices of the machines' events.
- AES, base64, the printing of floats and regular expressions other than those of the package name and the exit message.
- Splitting of command lines, negation of states, configuration keys, internal checks, and the Go side of the embedded Perl cache.
