/** Per-partition processing records of a map/reduce job: who processes a
    partition and in which state the partition is. */
module Partitions {

  datatype Option<T> = None | Some(value: T)

  /** A cluster member's address; only its equality matters here. */
  datatype Address = Address(host: string, port: int)

  /** Lifecycle state of one partition of a job. */
  datatype State = Waiting | Processing | Processed | Cancelled

  /** One partition's record: the member working on it and its state. */
  datatype Record = Record(owner: Option<Address>, state: State)

  /** The job's partition-state array; a `None` slot is a null entry. */
  type Table = seq<Option<Record>>

  /** The record a request installs for its caller. */
  function ClaimRecord(caller: Address): Record {
    Record(Some(caller), Processing)
  }

  /** A slot may be claimed when it is still empty or was released for
      processing again; any other state keeps it out of reach. */
  function Claimable(slot: Option<Record>): (r: bool)
    ensures r <==> slot == None || slot.value.state !in {Processing, Processed, Cancelled}
  {
    match slot
    case None => true
    case Some(rec) => rec.state == Waiting
  }

  /** The table a request tries to install: the snapshot it read with its own
      record at `pid`. */
  function Candidate(snapshot: Table, pid: nat, caller: Address): (c: Table)
    requires pid < |snapshot|
    ensures |c| == |snapshot|
    ensures c[pid] == Some(ClaimRecord(caller)) && !Claimable(c[pid])
    ensures forall j :: 0 <= j < |c| && j != pid ==> c[j] == snapshot[j]
  {
    snapshot[pid := Some(ClaimRecord(caller))]
  }

  /** The test at run():81-82 that tells a request it won the partition. */
  predicate Won(slot: Option<Record>, caller: Address) {
    slot.Some? && slot.value.state == Processing && slot.value.owner == Some(caller)
  }
}
