/** The request a worker member sends to the job's owner to be recorded as
    the member processing one partition. Line numbers in comments refer to
    RequestPartitionProcessing.java. */
module Operation {
  import opened Partitions
  import opened ProcessInformation
  import opened Environment
  import opened Claim
  import opened Wire

  /** Identity under which the map/reduce service keeps a job's supervisor. */
  datatype JobKey = JobKey(name: string, jobId: string)

  /** The outcome of checkState: a claimability verdict or an exception. */
  datatype Result<T> = Ok(value: T) | Throw(error: RunError)

  class RequestPartitionProcessing {
    var name: string
    var jobId: string
    var partitionId: int32
    /** The response field; `None` is null. */
    var partitionStates: Option<Table>

    /** The constructor a sender uses. */
    constructor (name: string, jobId: string, partitionId: int32)
      ensures this.name == name && this.jobId == jobId && this.partitionId == partitionId
      ensures partitionStates == None
    {
      this.name, this.jobId, this.partitionId := name, jobId, partitionId;
      partitionStates := None;
    }

    /** The no-argument constructor a receiver uses before readInternal. */
    constructor Empty()
      ensures partitionId == 0 && partitionStates == None
    {
      name, jobId, partitionId := "", "", 0;
      partitionStates := None;
    }

    method GetResponse() returns (r: Option<Table>)
      ensures r == partitionStates
    {
      r := partitionStates;
    }

    /** Reads the table and tests the slot of this request's partition. */
    method CheckState(info: JobProcessInformation) returns (r: Result<bool>)
      ensures 0 <= partitionId as int < |info.partitionStates| ==>
        r == Ok(Claimable(info.partitionStates[partitionId]))
      ensures !(0 <= partitionId as int < |info.partitionStates|) ==> r == Throw(ArrayIndexOutOfBounds)
    {
      var snapshot := info.GetPartitionStates();
      if !(0 <= partitionId as int < |snapshot.states|) {
        return Throw(ArrayIndexOutOfBounds);
      }
      var partitionState := snapshot.states[partitionId];
      r := Ok(partitionState == None || partitionState.value.state == Waiting);
    }

    /** Handles the request for the member `caller`. `supervisors` is the
        service's lookup of job supervisors and `env` the writes other
        requests make to the same table while this one runs. Returns the
        exception run() raises, if any. */
    method Run(supervisors: map<JobKey, JobProcessInformation>, caller: Address, env: seq<Interference>)
      returns (thrown: Option<RunError>)
      requires forall info | info in supervisors.Values :: info.Valid()
      modifies this`partitionStates, supervisors.Values
      ensures JobKey(name, jobId) !in supervisors ==>
        thrown == None && partitionStates == old(partitionStates) && unchanged(supervisors.Values)
      ensures JobKey(name, jobId) in supervisors ==>
        var info := supervisors[JobKey(name, jobId)];
        var r := RunSpec(old(info.partitionStates), partitionId as int, caller, env);
        info.Valid() && info.partitionStates == r.table && thrown == r.thrown &&
        (r.installed ==> info.version > old(info.version)) &&
        (!r.installed ==> info.version == old(info.version)) &&
        partitionStates == (if r.response.Some? then r.response else old(partitionStates)) &&
        unchanged(supervisors.Values - {info})
    {
      var key := JobKey(name, jobId);
      if key !in supervisors {
        return None;
      }
      var info: JobProcessInformation := supervisors[key];
      thrown := None;
      var entry := CheckState(info);
      if entry.Throw? {
        return Some(entry.error);
      }
      if entry.value {
        thrown := RetryClaim(info, caller, env);
      }
    }

    /** The retry loop of run() (:66-94), entered once checkState has found the
        slot claimable. */
    method RetryClaim(info: JobProcessInformation, caller: Address, env: seq<Interference>)
      returns (thrown: Option<RunError>)
      requires info.Valid() && 0 <= partitionId as int < |info.partitionStates|
      modifies info`partitionStates, info`version, this`partitionStates
      ensures info.Valid() && info.version > old(info.version)
      ensures var r := ClaimLoop(old(info.partitionStates), partitionId as nat, caller, env, 0);
              info.partitionStates == r.table && thrown == r.thrown &&
              partitionStates == (if r.response.Some? then r.response else old(partitionStates))
    {
      ghost var start := info.partitionStates;
      var pid := partitionId as nat;
      var newPartitionState := Some(ClaimRecord(caller));
      var pos := 0;
      while true
        invariant info.Valid() && pos <= |env| && info.version >= old(info.version)
        invariant partitionStates == old(partitionStates)
        invariant ClaimLoop(info.partitionStates, pid, caller, env, pos) == ClaimLoop(start, pid, caller, env, 0)
        decreases |env| - pos
      {
        ghost var passStart, passPos := info.partitionStates, pos;
        ClaimLoopPass(passStart, pid, caller, env, passPos);
        pos := EnvironmentStep(info, env, pos);
        var oldPartitionStates := info.GetPartitionStates();
        var newPartitionStates := CopyOf(oldPartitionStates.states);
        newPartitionStates[pid] := newPartitionState;
        assert newPartitionStates[..] == Candidate(oldPartitionStates.states, pid, caller);

        ghost var readPos := pos;
        pos := EnvironmentStep(info, env, pos);
        var swapped := info.UpdatePartitionState(oldPartitionStates.version, newPartitionStates[..]);
        assert swapped <==> !Writes(env, readPos);
        if !swapped {
          var still := CheckState(info);
          if still.value {
            // the swap lost to another writer but the slot is still free
            continue;
          }
        } else {
          pos := EnvironmentStep(info, env, pos);
          var current := info.GetPartitionStates();
          var partitionState := current.states[pid];
          if partitionState == None {
            return Some(NullPointer);
          }
          if partitionState.value.state == Processing && partitionState.value.owner == None {
            return Some(NullPointer);
          }
          if partitionState.value.state == Processing && partitionState.value.owner == Some(caller) {
            // this request won the partition
            partitionStates := Some(current.states);
            return None;
          }
          // another member holds it after a migration race: concede
          partitionStates := Some(current.states);
          return None;
        }
      }
    }

    method WriteInternal(out: DataOutput)
      modifies out
      ensures out.bytes == old(out.bytes) + EncodeInt(partitionId)
    {
      out.WriteInt(partitionId);
    }

    /** Returns whether the stream ended before the partition id (an
        EOFException); the id is then left as it was. */
    method ReadInternal(input: DataInput) returns (eof: bool)
      modifies this`partitionId, input
      ensures eof <==> old(input.pos) + 4 > |input.bytes|
      ensures !eof ==> partitionId == DecodeInt(input.bytes[old(input.pos)..old(input.pos) + 4])
      ensures eof ==> partitionId == old(partitionId)
      ensures !eof ==> input.pos == old(input.pos) + 4
      ensures eof ==> input.pos == old(input.pos)
    {
      var v := input.ReadInt();
      eof := v.None?;
      if !eof {
        partitionId := v.value;
      }
    }
  }

  /** Arrays.copyOf at full length: a new array with the same elements. */
  method CopyOf(states: Table) returns (copy: array<Option<Record>>)
    ensures fresh(copy) && copy[..] == states
  {
    copy := new Option<Record>[|states|](i requires 0 <= i < |states| => states[i]);
  }

  /** A request serialised by the sender and read by the receiver carries the
      same partition id. */
  method PartitionIdRoundTrip(name: string, jobId: string, partitionId: int32) returns (restored: int32)
    ensures restored == partitionId
  {
    var sent := new RequestPartitionProcessing(name, jobId, partitionId);
    var out := new DataOutput();
    sent.WriteInternal(out);
    var input := new DataInput(out.bytes);
    var received := new RequestPartitionProcessing.Empty();
    var eof := received.ReadInternal(input);
    DecodeEncode(partitionId);
    assert input.bytes[0..4] == EncodeInt(partitionId);
    restored := received.partitionId;
  }
}
