# Partition claims for Hazelcast map/reduce jobs

A worker member of a Hazelcast map/reduce job sends `RequestPartitionProcessing`
to the job's owner. The request asks the owner to record the worker as the
member processing one partition. The owner keeps one array of per-partition
records for the job. Requests never change that array in place. Each request
copies the array, writes `{caller, PROCESSING}` into its partition's slot, and
installs the copy with a compare-and-swap (CAS) against the array reference it
read.

The model has these modules:

- `Partitions` (`partition.dfy`): addresses, partition states, records, the
  claimability test and the candidate array.
- `ProcessInformation` (`process_information.dfy`): the job's table holder,
  `JobProcessInformation`. It holds the table as a sequence plus a version
  counter. The counter stands for the identity of the array reference, so the
  CAS (`UpdatePartitionState`) compares versions.
- `Environment` (`environment.dfy`): the other writers of the same table. A
  run takes a finite schedule of interference. The claim loop offers one
  schedule entry at each of three yield points per pass:
  - before its read;
  - between its read and its swap;
  - between a successful swap and the re-read.

  Each entry is either quiet or a republication of the table with one slot
  replaced. A CAS fails exactly when the entry between the read and the swap
  was a write. Because the schedule is finite, the retry loop terminates. Past
  the end of the schedule nobody else writes.
- `Claim` (`claim.dfy`): what one request does, as pure functions:
  - `ClaimLoop` is the retry loop and `RunSpec` the whole operation once the
    supervisor is found.
  - The lemmas about them state the properties of the protocol.
  - `ClaimLoopIntended` is the corrected loop described under Findings.
- `Operation` (`operation.dfy`): the class `RequestPartitionProcessing`, with
  its response field, `checkState`, `run` and the serialisation of the
  partition id. `Run` and its loop are proved against `RunSpec`.
- `Wire` (`wire.dfy`): the 4-byte big-endian two's-complement encoding that
  `writeInt`/`readInt` use for the partition id, and the two stream objects.
- `Scenarios` (`scenarios.dfy`): concrete requests with their outcomes, including the races.

## Behaviour as written

The model follows the code of `RequestPartitionProcessing.java`. In four
places the code differs from how the protocol is usually described:

- **A non-claimable partition gets no response.** If the slot is neither null
  nor `WAITING` on entry, `run()` returns without assigning the response field
  (lines 37 and 65). The response therefore stays `null`; the request does not
  report the unchanged table.
- **Re-sending a request gets no response either.** A request that re-sends a
  claim after an earlier identical request succeeded finds the slot
  `PROCESSING`. The table is left alone and the response is `null`; the request
  does not report a snapshot showing the caller as owner.
- **A failed CAS always retries.** After a failed swap, the `checkState` call
  at line 74 only decides between `continue` and falling through to the end of
  the loop body (line 94). Either way the loop starts another pass. That pass
  copies whatever is now in the table and swaps again, even if another member
  has claimed the partition in the meantime.
- **The first pass does not re-test its own read.** Claimability is tested at
  line 65, but the first pass copies the table it reads at line 67. A claim
  that lands between those two reads is overwritten by a swap that succeeds.

After a successful swap, both the winning branch and the conceding branch store
a re-read of the table, not the array the request built. A null slot in that
re-read, or a `PROCESSING` slot with no owner, makes the test at lines 81-82
dereference null. The model returns that exception, and no response is stored.

## Model

| member | source | states |
|---|---|---|
| `Partitions.Claimable` | hazelcast/src/main/java/com/hazelcast/mapreduce/impl/operation/RequestPartitionProcessing.java:98-102 | a slot is claimable exactly when it is null or `WAITING`; `PROCESSING`, `PROCESSED` and `CANCELLED` are not |
| `Partitions.Candidate` | hazelcast/src/main/java/com/hazelcast/mapreduce/impl/operation/RequestPartitionProcessing.java:62-71 | the candidate has the snapshot's length, holds `{caller, PROCESSING}` (not claimable) at the partition and equals the snapshot at every other index |
| `ProcessInformation.JobProcessInformation.GetPartitionStates` | hazelcast/src/main/java/com/hazelcast/mapreduce/impl/operation/RequestPartitionProcessing.java:67 | returns the current table together with the identity of its reference |
| `ProcessInformation.JobProcessInformation.UpdatePartitionState` | hazelcast/src/main/java/com/hazelcast/mapreduce/impl/operation/RequestPartitionProcessing.java:73 | the swap succeeds exactly when the reference is still the one read; on success it installs the new table under a new identity, and on failure it changes nothing |
| `Environment.EnvironmentStep` | hazelcast/src/main/java/com/hazelcast/mapreduce/impl/operation/RequestPartitionProcessing.java:73-77 | another writer's successful swap replaces the table and moves the reference on, which is what makes this request's swap fail |
| `Claim.Reread` | hazelcast/src/main/java/com/hazelcast/mapreduce/impl/operation/RequestPartitionProcessing.java:79-92 | after a successful swap the stored response is exactly the re-read table; the re-read throws a null dereference exactly when the slot is null, or is `PROCESSING` with no owner |
| `Claim.ClaimLoop` | hazelcast/src/main/java/com/hazelcast/mapreduce/impl/operation/RequestPartitionProcessing.java:66-94 | the loop keeps the table's length, consumes only schedule entries it reaches, is left only through a swap of its own, and either stores the final table as the response or throws a null dereference |
| `Claim.RunSpec` | hazelcast/src/main/java/com/hazelcast/mapreduce/impl/operation/RequestPartitionProcessing.java:65-96 | the request installs a claim exactly when the id is in range and the slot is claimable on entry; an id out of range throws `ArrayIndexOutOfBounds`; a request that installs nothing leaves the table unchanged and stores no response |
| `Claim.OtherSlotsFollowEnvironment` | hazelcast/src/main/java/com/hazelcast/mapreduce/impl/operation/RequestPartitionProcessing.java:67-78 | every slot other than the claimed one ends as the other writers' schedule left it, so the retries lose no update to another partition |
| `Claim.ClaimStandsUnlessOverwritten` | hazelcast/src/main/java/com/hazelcast/mapreduce/impl/operation/RequestPartitionProcessing.java:65-85 | if no other writer touches the claimed slot, the request ends holding `{caller, PROCESSING}` there, as the winner, and stores the table as the response |
| `Claim.ClaimKeepsOtherWrites` | hazelcast/src/main/java/com/hazelcast/mapreduce/impl/operation/RequestPartitionProcessing.java:66-92 | when other writers touch only other partitions, the final table is their writes with the caller's record at the partition; it is the response and nothing is thrown |
| `Claim.QuietClaimWins` | hazelcast/src/main/java/com/hazelcast/mapreduce/impl/operation/RequestPartitionProcessing.java:65-85 | with no interference, a claimable request ends with exactly its candidate: the caller's record at the partition, every other slot and the length unchanged, and that table as the response |
| `Claim.ResendChangesNothing` | hazelcast/src/main/java/com/hazelcast/mapreduce/impl/operation/RequestPartitionProcessing.java:98-102 | after a request has won its partition, any later request for it, from any member, leaves the table unchanged and stores no response |
| `Claim.ClaimLoopIntended` | hazelcast/src/main/java/com/hazelcast/mapreduce/impl/operation/RequestPartitionProcessing.java:65-77 | the corrected loop keeps the table's length and consumes only schedule entries it reaches |
| `Claim.IntendedAgrees` | hazelcast/src/main/java/com/hazelcast/mapreduce/impl/operation/RequestPartitionProcessing.java:65-77 | where no other writer reaches the claimed slot, the corrected loop gives exactly the outcome of the loop as written: it still retries a swap lost to an unrelated write and still wins the slot |
| `Claim.IntendedNeverDisplacesClaim` | hazelcast/src/main/java/com/hazelcast/mapreduce/impl/operation/RequestPartitionProcessing.java:65-77 | the corrected loop installs its claim only over a slot that was claimable in the table the swap replaced |
| `Operation.RequestPartitionProcessing.constructor` | hazelcast/src/main/java/com/hazelcast/mapreduce/impl/operation/RequestPartitionProcessing.java:43-46 | a new request carries its job name, job id and partition id, and its response is null |
| `Operation.RequestPartitionProcessing.Empty` | hazelcast/src/main/java/com/hazelcast/mapreduce/impl/operation/RequestPartitionProcessing.java:40-41 | a request made for deserialisation starts with partition id 0 and a null response |
| `Operation.RequestPartitionProcessing.GetResponse` | hazelcast/src/main/java/com/hazelcast/mapreduce/impl/operation/RequestPartitionProcessing.java:48-51 | the response is the response field |
| `Operation.RequestPartitionProcessing.CheckState` | hazelcast/src/main/java/com/hazelcast/mapreduce/impl/operation/RequestPartitionProcessing.java:98-102 | reports whether the current slot of the request's partition is claimable, or throws `ArrayIndexOutOfBounds` when the id is outside the table |
| `Operation.RequestPartitionProcessing.Run` | hazelcast/src/main/java/com/hazelcast/mapreduce/impl/operation/RequestPartitionProcessing.java:53-96 | with no supervisor, nothing changes and nothing is thrown; otherwise the job's table, the exception and the response field are exactly those `RunSpec` gives; a request that installs a claim moves the table's reference on, and one that installs nothing leaves the reference as it was; no other job's table changes |
| `Operation.RequestPartitionProcessing.RetryClaim` | hazelcast/src/main/java/com/hazelcast/mapreduce/impl/operation/RequestPartitionProcessing.java:66-94 | the copy, assign and swap loop leaves the table, the exception and the response field exactly as `ClaimLoop` gives them, and its own successful swap moves the table's reference on |
| `Operation.CopyOf` | hazelcast/src/main/java/com/hazelcast/mapreduce/impl/operation/RequestPartitionProcessing.java:68 | the copy is a new array with the snapshot's elements |
| `Operation.RequestPartitionProcessing.WriteInternal` | hazelcast/src/main/java/com/hazelcast/mapreduce/impl/operation/RequestPartitionProcessing.java:104-108 | appends the partition id's four bytes to the stream |
| `Operation.RequestPartitionProcessing.ReadInternal` | hazelcast/src/main/java/com/hazelcast/mapreduce/impl/operation/RequestPartitionProcessing.java:110-114 | sets the partition id to the decoded next four bytes and advances the stream by four, or reports end of stream when fewer remain and leaves both the id and the stream position alone |
| `Operation.PartitionIdRoundTrip` | hazelcast/src/main/java/com/hazelcast/mapreduce/impl/operation/RequestPartitionProcessing.java:104-114 | a request written by `writeInternal` and read by `readInternal` into a fresh request carries the same partition id |
| `Wire.DecodeEncode` | hazelcast/src/main/java/com/hazelcast/mapreduce/impl/operation/RequestPartitionProcessing.java:107 | decoding the four bytes written for any 32-bit value gives that value back |
| `Wire.EncodeDecode` | hazelcast/src/main/java/com/hazelcast/mapreduce/impl/operation/RequestPartitionProcessing.java:113 | any four bytes are the encoding of the value they decode to |
| `Wire.DataOutput.WriteInt` | hazelcast/src/main/java/com/hazelcast/mapreduce/impl/operation/RequestPartitionProcessing.java:107 | appends the value's four bytes, most significant first |
| `Wire.DataInput.ReadInt` | hazelcast/src/main/java/com/hazelcast/mapreduce/impl/operation/RequestPartitionProcessing.java:113 | decodes the next four bytes and advances, or fails without moving when fewer than four remain |
| `Scenarios.FirstClaimWins` | hazelcast/src/main/java/com/hazelcast/mapreduce/impl/operation/RequestPartitionProcessing.java:65-85 | member M1 claiming partition 0 of `[null, null]` ends with `[{M1, PROCESSING}, null]` as the table and the response |
| `Scenarios.ClaimedPartitionIsRefused` | hazelcast/src/main/java/com/hazelcast/mapreduce/impl/operation/RequestPartitionProcessing.java:65 | member M2 asking for a partition M1 processes leaves the table unchanged and gets a null response |
| `Scenarios.WaitingPartitionIsClaimed` | hazelcast/src/main/java/com/hazelcast/mapreduce/impl/operation/RequestPartitionProcessing.java:101 | a `WAITING` partition is claimed by the new member |
| `Scenarios.ConcurrentClaimsOnTwoPartitions` | hazelcast/src/main/java/com/hazelcast/mapreduce/impl/operation/RequestPartitionProcessing.java:66-78 | a claim for partition 1 between this request's read and swap makes the swap fail; the retry keeps both claims |
| `Scenarios.ReportsRereadTable` | hazelcast/src/main/java/com/hazelcast/mapreduce/impl/operation/RequestPartitionProcessing.java:79-92 | another member's record arriving between the swap and the re-read is what the response shows: the response is not the built array, and the caller is told it lost |
| `Scenarios.EmptiedSlotThrows` | hazelcast/src/main/java/com/hazelcast/mapreduce/impl/operation/RequestPartitionProcessing.java:80-82 | a slot emptied before the re-read makes the request throw a null dereference, and no response is stored |
| `Scenarios.OutOfRangeThrows` | hazelcast/src/main/java/com/hazelcast/mapreduce/impl/operation/RequestPartitionProcessing.java:100 | ids past the end, and negative ids, throw `ArrayIndexOutOfBounds` and change nothing |
| `Scenarios.FailedSwapDisplacesClaim` | hazelcast/src/main/java/com/hazelcast/mapreduce/impl/operation/RequestPartitionProcessing.java:73-94 | with the loop as written, M1's retry replaces the claim M2 has already won, and both requests report themselves as the winner |
| `Scenarios.FirstPassDisplacesClaim` | hazelcast/src/main/java/com/hazelcast/mapreduce/impl/operation/RequestPartitionProcessing.java:65-67 | with the loop as written, a claim by M2 landing between the entry check and M1's first read is copied away by M1's first, successful swap, and both requests report themselves as the winner |
| `Scenarios.IntendedLoopKeepsClaim` | hazelcast/src/main/java/com/hazelcast/mapreduce/impl/operation/RequestPartitionProcessing.java:65-77 | on both of those schedules, the corrected loop stops and leaves M2's claim in place |

## Findings

| source | as written | input that shows it | evidently intended | confidence | as-written member | corrected member |
|---|---|---|---|---|---|---|
| hazelcast/src/main/java/com/hazelcast/mapreduce/impl/operation/RequestPartitionProcessing.java:73-94 | after a failed swap the loop starts another pass whether or not the partition is still claimable, and that pass overwrites whatever record is now in the slot | table `[null]`; M2 claims partition 0 between M1's read and M1's swap; M1's swap fails, its next pass installs `{M1, PROCESSING}` over M2's record, and both requests report that they won | the comment at line 75 says the retry is for the case where the partition "is still not assigned", so a request should stop once another member holds the slot; a `return` after line 77 alone would not close the window between line 74 and the next read at line 67, so the corrected loop tests the snapshot it read at line 67 before every swap and stops, storing no response, when that snapshot's slot is not claimable | medium, not executed | `Scenarios.FailedSwapDisplacesClaim` | `Claim.IntendedNeverDisplacesClaim` |
| hazelcast/src/main/java/com/hazelcast/mapreduce/impl/operation/RequestPartitionProcessing.java:65-67 | claimability is tested at line 65 on one read of the table, but the first pass copies a second read taken at line 67, so a claim landing in between is overwritten by a swap that succeeds | table `[null]`; M2 claims partition 0 after M1's check at line 65 and before M1's read at line 67; M1's first swap succeeds over M2's record, and both requests report that they won | the request should claim only a slot that is free in the table it swaps against; the corrected loop tests the snapshot read at line 67, which closes this window too | medium, not executed | `Scenarios.FirstPassDisplacesClaim` | `Claim.IntendedNeverDisplacesClaim` |

`Operation.RequestPartitionProcessing.Run` keeps the loop as written, because
it models the deployed behaviour. The corrected loop is a separate
specification, `Claim.ClaimLoopIntended`, and `Scenarios.IntendedLoopKeepsClaim`
states its outcome on both inputs. `Claim.IntendedAgrees` shows that the
correction changes nothing where no other writer reaches the claimed slot.

## Left out

- Threads and the memory-visibility rules of the `volatile` response field are
  not modelled. The other writers are a finite schedule consulted at three
  yield points per pass. A write between the `checkState` at line 74 and the
  next read is the same as a write at the next pass's first yield point. That
  `checkState` does not steer control flow.
- Each schedule entry stands for at most one foreign swap, and that swap
  replaces one slot. So between two steps of a request the table differs in at
  most one slot, and a re-read differing from the installed table in two slots
  cannot occur. Several foreign writes between the same two steps are not
  modelled.
- Unbounded interference is not modelled. Termination is proved for every
  finite schedule, so livelock under endless contention is outside the model.
- `Operation.RequestPartitionProcessing.Run`: the supervisor lookup
  `MapReduceService.getJobSupervisor` is a map from job name and job id to the
  job's table holder, passed as a parameter. `getService()` is not part of this
  model.
- The caller address is a parameter of `Run`. In the source, the transport
  sets it on the operation.
- `JobSupervisor` and `JobProcessInformationImpl` are not part of this model.
  Their role is played by `JobProcessInformation`, which offers only
  `getPartitionStates` and `updatePartitionState`.
- `ProcessInformation.JobProcessInformation.UpdatePartitionState`: requires the
  new table to have the job's partition count. Every writer installs a copy of
  the array it read, so the table's length never changes.
- `JobPartitionState.State` is not part of this model. Its values here are
  `WAITING`, `PROCESSING`, `PROCESSED` and `CANCELLED`. The claim only tells
  `WAITING` apart from the rest.
- A record with a null state is not modelled. A record's owner may be null.
- Address equality is structural equality on a host and port value.
- The superclass `ProcessingOperation` writes and reads the job name and job
  id. That is not part of this model, nor is the rest of the stream format.
  Only the partition id's four bytes are modelled, so `Operation.PartitionIdRoundTrip`
  restores the partition id alone.
- `getFactoryId` and `getId` (lines 116-124) return serialisation-registry
  constants and are left out.
