/** The job's shared table holder: one reference to an immutable partition
    array, replaced as a whole by compare-and-swap. */
module ProcessInformation {
  import opened Partitions

  /** A snapshot read from the holder: the array and the identity of the
      reference it was read through. */
  datatype Snapshot = Snapshot(states: Table, version: nat)

  class JobProcessInformation {
    const partitionCount: nat
    var partitionStates: Table
    /** Stands for the identity of the array reference: every installed array
        is a new object, so every successful swap moves to a new version. */
    var version: nat

    ghost predicate Valid()
      reads this
    {
      |partitionStates| == partitionCount
    }

    /** A job starts with an array of `partitionCount` null slots. */
    constructor (partitionCount: nat)
      ensures Valid() && this.partitionCount == partitionCount
      ensures forall j :: 0 <= j < |partitionStates| ==> partitionStates[j] == None
    {
      this.partitionCount := partitionCount;
      partitionStates := seq(partitionCount, _ => None);
      version := 0;
    }

    /** Reads the current array reference. */
    method GetPartitionStates() returns (s: Snapshot)
      ensures s.states == partitionStates && s.version == version
    {
      s := Snapshot(partitionStates, version);
    }

    /** Installs `newStates` if the reference is still the one read at
        `expected`; otherwise leaves everything as it is. */
    method UpdatePartitionState(expected: nat, newStates: Table) returns (ok: bool)
      requires Valid() && |newStates| == partitionCount
      modifies this`partitionStates, this`version
      ensures Valid()
      ensures ok <==> old(version) == expected
      ensures ok ==> partitionStates == newStates && version == old(version) + 1
      ensures !ok ==> partitionStates == old(partitionStates) && version == old(version)
    {
      ok := version == expected;
      if ok {
        partitionStates := newStates;
        version := version + 1;
      }
    }
  }
}
