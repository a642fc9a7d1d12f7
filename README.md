# GDPR consent registries, modelled in Dafny

The repository benchmarks three Solidity designs of one compliance registry. The
registry tracks, per account address, whether the user consents, and records the
user's requests for access to and deletion of their data. The three designs keep
different amounts of state and emit different events:

- **ConsentBasic** (`consent_basic.dfy`, module `Basic`). Three separate mappings:
  a consent flag, an access-request counter and a deletion-request counter.
  The entry points are `giveConsent`, `revokeConsent`, `requestDataAccess` and
  `requestDeletion`. Each acts on the caller's own entry and emits one event.
  A request event carries the caller's new count.
- **ConsentOptimized** (`consent_optimized.dfy`, module `Optimized`). One packed
  record `(consent, accessCount, deletionCount)` per address, read back by
  `getUserState`. `setConsent` is self-service. `batchRecordAccess` and
  `batchRecordDeletion` may be called by anyone. They walk a list of addresses
  in order, count repeats and emit a single `AccessBatch` or `DeletionBatch`
  event `(operator, list length)`.
- **ConsentMinimalEvent** (`consent_minimal_event.dfy`, module `MinimalEvent`).
  Only the consent flag is stored. `emitAccess` and `emitDeletion` only emit
  an event.

Each contract is a Dafny class. Its storage is a `map` from `Address` to values,
and a key that was never written reads as zero or false, like a Solidity mapping
(`Storage.Lookup`, `storage.dfy`). The event log is a `seq<Event>` field that the
methods only append to. The caller (`msg.sender`) is an explicit `caller`
parameter. Each entry point is a method whose postconditions give the whole new
storage and the new log in terms of the old ones.

Each class also keeps an invariant `Valid()`: the stored state is what an
off-chain reader gets by replaying the event log (`LastConsent`, and in the Basic
registry `Tally`). In Basic, each request event also carries its user's running
total (`Numbered`). The getters' postconditions state this link to the log. In
the Optimized registry only consent can be replayed per address: a batch event
does not name its addresses, so one address's counters cannot be recovered from
the log (`Optimized.BatchLogOmitsAddresses`). The log does fix the totals, since
each batch event carries its list length; the model does not state that total.

The Solidity contracts are not modelled line by line. Their behaviour is
taken from what the three Hardhat test suites assert, and each suite's workflows appear as
client methods. Each such method runs the calls on a fresh registry and states,
as postconditions, what the test asserts. Several are generalised to any number
of calls.

## Model

| member | source | states |
|---|---|---|
| `Basic.ConsentBasic.constructor` | test/ConsentBasic.test.ts:24-31 | a freshly deployed registry reports no consent and zero access and deletion counts for every address, and its log is empty |
| `Basic.ConsentBasic.HasConsented` | test/ConsentBasic.test.ts:35-54 | the stored consent flag equals the value of the user's last `ConsentUpdated` event, false if there is none |
| `Basic.ConsentBasic.AccessRequestCount` | test/ConsentBasic.test.ts:79-88 | the stored access counter equals the number of `AccessRequested` events the user has in the log |
| `Basic.ConsentBasic.DeletionRequestCount` | test/ConsentBasic.test.ts:109-118 | the stored deletion counter equals the number of `DeletionRequested` events the user has in the log |
| `Basic.ConsentBasic.GiveConsent` | test/ConsentBasic.test.ts:35-41 | only the caller's consent entry changes, it becomes true, both counter mappings are unchanged, and exactly `ConsentUpdated(caller, true)` is appended |
| `Basic.ConsentBasic.RevokeConsent` | test/ConsentBasic.test.ts:43-54 | only the caller's consent entry changes, it becomes false, both counters are unchanged, and exactly `ConsentUpdated(caller, false)` is appended |
| `Basic.ConsentBasic.RequestDataAccess` | test/ConsentBasic.test.ts:71-88 | only the caller's access counter changes, it goes up by one, consent and deletion counts are unchanged, and exactly `AccessRequested(caller, newCount)` is appended |
| `Basic.ConsentBasic.RequestDeletion` | test/ConsentBasic.test.ts:101-118 | only the caller's deletion counter changes, it goes up by one, consent and access counts are unchanged, and exactly `DeletionRequested(caller, newCount)` is appended |
| `Basic.TallyAppend` | test/ConsentBasic.test.ts:79-97 | appending an event raises one user's tally of one request kind by one when the event is such a request, and leaves every other tally unchanged |
| `Basic.NumberedAppend` | test/ConsentBasic.test.ts:71-77 | a log in which every request event carries its user's running total stays so when a consent event is appended, or a request carrying one more than its user's tally |
| `Basic.RepeatedRequests` | test/ConsentBasic.test.ts:79-88 | k access requests (or k deletion requests) by one user leave that counter at k, and the i-th request emitted count i |
| `Basic.IndependentConsent` | test/ConsentBasic.test.ts:56-67 | after two users give consent and the first revokes, the first has no consent and the second still has it |
| `Basic.RequestsPerUser` | test/ConsentBasic.test.ts:90-97 | two requests by one user and one by another read back as 2 and 1, for access and for deletion (test/ConsentBasic.test.ts:120-127) |
| `Basic.CompleteWorkflow` | test/ConsentBasic.test.ts:131-152 | consent, two access requests, one deletion request and revocation leave consent false and the counters at 2 and 1 |
| `Optimized.ConsentOptimized.constructor` | test/ConsentOptimized.test.ts:26-31 | every address of a fresh registry reads as `(false, 0, 0)`, and the log is empty |
| `Optimized.ConsentOptimized.GetUserState` | test/ConsentOptimized.test.ts:35-55 | the consent field of the returned record equals the value of the user's last `ConsentUpdated` event, false if there is none |
| `Optimized.ConsentOptimized.SetConsent` | test/ConsentOptimized.test.ts:35-72 | only the caller's record changes, only its consent field changes (to the given value), and exactly `ConsentUpdated(caller, value)` is appended |
| `Optimized.ConsentOptimized.BatchRecordAccess` | test/ConsentOptimized.test.ts:76-130 | every address's access count grows by its number of occurrences in the list, consent and deletion fields are untouched, exactly the listed addresses gain a record, and exactly one `AccessBatch(operator, length)` is appended, also for an empty list |
| `Optimized.ConsentOptimized.BatchRecordDeletion` | test/ConsentOptimized.test.ts:134-176 | every address's deletion count grows by its number of occurrences in the list, consent and access fields are untouched, and exactly one `DeletionBatch(operator, length)` is appended, also for an empty list |
| `Optimized.RepeatedBatches` | test/ConsentOptimized.test.ts:202-214 | n access batches over one list leave each address at n times its occurrences in the list with its other fields at their defaults, and log n batch events (two batches: test/ConsentOptimized.test.ts:101-112) |
| `Optimized.DuplicateAddresses` | test/ConsentOptimized.test.ts:120-130 | the batch `[u1, u1, u2]` gives access counts 2 and 1 and logs exactly one `AccessBatch(operator, 3)` |
| `Optimized.SeparateUserState` | test/ConsentOptimized.test.ts:179-200 | after mixed consent, access and deletion calls the two users' records are `(true, 2, 0)` and `(false, 1, 1)` |
| `Optimized.CompleteWorkflow` | test/ConsentOptimized.test.ts:218-243 | the batch workflow ends with records `(false, 1, 1)` for the first user and `(true, 1, 0)` for the second |
| `Optimized.BatchLogOmitsAddresses` | test/ConsentOptimized.test.ts:76-83 | access batches over different addresses by one operator leave identical logs but different counters, so an address's own counters cannot be rebuilt from the log |
| `MinimalEvent.ConsentMinimalEvent.constructor` | test/ConsentMinimalEvent.test.ts:24-26 | a fresh registry reports no consent for every address, and its log is empty |
| `MinimalEvent.ConsentMinimalEvent.HasConsented` | test/ConsentMinimalEvent.test.ts:30-49 | the stored flag equals the value of the user's last `Consent` event, false if there is none |
| `MinimalEvent.ConsentMinimalEvent.SetConsent` | test/ConsentMinimalEvent.test.ts:30-62 | only the caller's flag changes, to the given value, and exactly `Consent(caller, value)` is appended, also when the value repeats |
| `MinimalEvent.ConsentMinimalEvent.EmitAccess` | test/ConsentMinimalEvent.test.ts:83-118 | any caller may call it; stored consent is unchanged and exactly `Access(caller)` is appended |
| `MinimalEvent.ConsentMinimalEvent.EmitDeletion` | test/ConsentMinimalEvent.test.ts:122-157 | any caller may call it; stored consent is unchanged and exactly `Deletion(caller)` is appended |
| `MinimalEvent.RequestKeepsLastConsent` | test/ConsentMinimalEvent.test.ts:160-188 | appending an `Access` or `Deletion` event leaves the log's consent for every user unchanged |
| `MinimalEvent.ConsentSequence` | test/ConsentMinimalEvent.test.ts:64-79 | a run of consent settings by one user emits one `Consent` event per call in order and leaves the last value stored (test/ConsentMinimalEvent.test.ts:281-294) |
| `MinimalEvent.RepeatedEmissions` | test/ConsentMinimalEvent.test.ts:89-101 | after giving consent, k access (or deletion) emissions by the user append exactly k such events and leave consent true (deletion: test/ConsentMinimalEvent.test.ts:128-140) |
| `MinimalEvent.AnyCallerEmits` | test/ConsentMinimalEvent.test.ts:113-118 | the deployer and any other caller may emit and each call appends exactly its one event; the consenting user's flag stays true and the deployer's flag is the same before and after, false when the deployer is a different address |
| `MinimalEvent.CompleteWorkflow` | test/ConsentMinimalEvent.test.ts:161-188 | consent, two access events, one deletion event and revocation leave consent false and the log holding exactly those five events |
| `MinimalEvent.MixedUsers` | test/ConsentMinimalEvent.test.ts:190-205 | interleaved calls by two users leave the first consenting and the second not |

## Left out

- The Solidity contracts are not modelled line by line. The model follows the behaviour the three Hardhat test suites assert.
- Counter width and overflow. Counters are unbounded `nat`. The packed record's counters are 32-bit, as the test "Should handle uint32 overflow gracefully" (test/ConsentOptimized.test.ts:202) names them, and that test only makes ten increments (test/ConsentOptimized.test.ts:202-214). Whether a 32-bit overflow wraps around or reverts (Solidity 0.8.24, hardhat.config.ts:16, reverts unless the code is `unchecked`) is not modelled, so the model is exact only below 2^32.
- Optimized.ConsentOptimized.Valid: ties only consent to the log. The sum of all access counters equals the sum of the `AccessBatch` lengths in the log, and likewise for deletion, but the invariant does not state this, because summing over a Solidity mapping's keys has no counterpart in the registry's own operations.
- Reverts and batch atomicity. No modelled operation can fail below the counter limit, so there is no rollback path to model.
- Authorization. No test restricts who may call the batch or emit operations, and the model adds no check. Left this way, any caller can raise any user's counters in the Optimized registry.
- Gas. The gas measurements in the test suites and the benchmark script (dist/scripts/benchmark.js) read costs from the EVM and only print them. The per-user gas division (test/ConsentOptimized.test.ts:278-279) is floating point.
- The benchmark harness (dist/scripts/benchmark.js). It deploys one variant, makes one call per operation, reads environment variables and prints JSON. All of that is I/O against a live node.
- Deployment, network configuration and test runners (hardhat.config.ts, scripts/deploy.ts, scripts/runAll.js, test/runAllTests.ts). These are I/O and process spawning.
- The access and deletion event-filtering tests (test/ConsentMinimalEvent.test.ts:257-277). Their only assertion is `true`.
- The "deploys to a proper address" tests (for example test/ConsentBasic.test.ts:20-22). They concern the chain, not the registry.
