/** What one partition-claim request does to the job table, as a function of
    the table it starts from and of the interference schedule. Line numbers
    in comments refer to RequestPartitionProcessing.java. */
module Claim {
  import opened Partitions
  import opened Environment

  /** The exceptions run() can raise. */
  datatype RunError = ArrayIndexOutOfBounds | NullPointer

  /** How a request ends. `response` is what run() stores in its response
      field (`None`: nothing stored). `consumed` counts the schedule entries
      that took place, `installed` says whether the request's own swap
      succeeded and `displaced` is the slot that swap replaced. */
  datatype Outcome = Outcome(
    table: Table,
    response: Option<Table>,
    thrown: Option<RunError>,
    consumed: nat,
    installed: bool,
    displaced: Option<Record>)

  datatype Reply = Reply(response: Option<Table>, thrown: Option<RunError>)

  /** The re-read after a successful swap (run():79-92). A null slot or a
      PROCESSING slot with no owner makes the test at :81-82 dereference null;
      otherwise the request stores the latest array, whether it won or conceded. */
  function Reread(latest: Table, pid: nat): (r: Reply)
    requires pid < |latest|
    ensures r.thrown.None? <==> r.response.Some?
    ensures r.thrown.Some? ==> r.thrown.value == NullPointer
    ensures r.response.Some? ==> r.response.value == latest
    ensures r.thrown.Some? <==> latest[pid] == None || (latest[pid].value.state == Processing && latest[pid].value.owner == None)
  {
    match latest[pid]
    case None => Reply(None, Some(NullPointer))
    case Some(rec) =>
      if rec.state == Processing && rec.owner.None? then Reply(None, Some(NullPointer))
      else Reply(Some(latest), None)
  }

  /** The retry loop of run():66-94 from table `t` at schedule position `pos`.
      Each pass reads the table, builds its candidate and swaps; a failed swap
      always leads to another pass, whatever checkState says at :74. */
  function ClaimLoop(t: Table, pid: nat, caller: Address, env: seq<Interference>, pos: nat): (r: Outcome)
    requires pid < |t| && pos <= |env|
    ensures |r.table| == |t|
    ensures pos <= r.consumed <= |env|
    ensures r.installed
    ensures r.thrown.None? <==> r.response.Some?
    ensures r.thrown.Some? ==> r.thrown.value == NullPointer
    ensures r.response.Some? ==> r.response.value == r.table
    decreases |env| - pos
  {
    var read := Step(t, env, pos);
    var candidate := Candidate(read.table, pid, caller);
    var before := Step(read.table, env, read.pos);
    if Writes(env, read.pos) then
      ClaimLoop(before.table, pid, caller, env, before.pos)
    else
      var latest := Step(candidate, env, before.pos);
      var reply := Reread(latest.table, pid);
      Outcome(latest.table, reply.response, reply.thrown, latest.pos, true, read.table[pid])
  }

  /** One pass of the loop, unfolded: a write between read and swap leads to
      the next pass, otherwise the pass ends the loop. */
  lemma ClaimLoopPass(t: Table, pid: nat, caller: Address, env: seq<Interference>, pos: nat)
    requires pid < |t| && pos <= |env|
    ensures var read := Step(t, env, pos);
            var before := Step(read.table, env, read.pos);
            Writes(env, read.pos) ==>
              ClaimLoop(t, pid, caller, env, pos) == ClaimLoop(before.table, pid, caller, env, before.pos)
    ensures var read := Step(t, env, pos);
            var before := Step(read.table, env, read.pos);
            var latest := Step(Candidate(read.table, pid, caller), env, before.pos);
            var reply := Reread(latest.table, pid);
            !Writes(env, read.pos) ==>
              ClaimLoop(t, pid, caller, env, pos) ==
              Outcome(latest.table, reply.response, reply.thrown, latest.pos, true, read.table[pid])
  {
  }

  /** run() once the supervisor is found: checkState at :65 (which indexes the
      table and so throws for an id out of range), then the loop. */
  function RunSpec(t: Table, pid: int, caller: Address, env: seq<Interference>): (r: Outcome)
    ensures |r.table| == |t|
    ensures r.installed <==> 0 <= pid < |t| && Claimable(t[pid])
    ensures r.thrown == Some(ArrayIndexOutOfBounds) <==> !(0 <= pid < |t|)
    ensures !r.installed ==> r.table == t && r.response == None && r.consumed == 0
  {
    if !(0 <= pid < |t|) then Outcome(t, None, Some(ArrayIndexOutOfBounds), 0, false, None)
    else if !Claimable(t[pid]) then Outcome(t, None, None, 0, false, None)
    else ClaimLoop(t, pid, caller, env, 0)
  }

  /** Slots other than the claimed one end as the other writers left them:
      the claim loses none of their updates. */
  lemma {:induction false} OtherSlotsFollowEnvironment(t: Table, pid: nat, caller: Address, env: seq<Interference>, pos: nat, j: nat)
    requires pid < |t| && pos <= |env| && j < |t| && j != pid
    ensures ClaimLoop(t, pid, caller, env, pos).table[j] == Replay(t, env, pos, ClaimLoop(t, pid, caller, env, pos).consumed)[j]
    decreases |env| - pos
  {
    var r := ClaimLoop(t, pid, caller, env, pos);
    var read := Step(t, env, pos);
    var candidate := Candidate(read.table, pid, caller);
    var before := Step(read.table, env, read.pos);
    StepIsReplay(t, env, pos);
    StepIsReplay(read.table, env, read.pos);
    ReplayThrough(t, env, pos, read.pos, before.pos);
    if Writes(env, read.pos) {
      OtherSlotsFollowEnvironment(before.table, pid, caller, env, before.pos, j);
      ReplayThrough(t, env, pos, before.pos, r.consumed);
    } else {
      var latest := Step(candidate, env, before.pos);
      StepIsReplay(candidate, env, before.pos);
      assert before.table == read.table;
      ReplaySlotLocal(candidate, read.table, env, before.pos, latest.pos, j);
      ReplayThrough(read.table, env, read.pos, before.pos, latest.pos);
      ReplayThrough(t, env, pos, read.pos, latest.pos);
    }
  }

  /** When no other writer touches the claimed slot, the request wins it and
      stores the table it re-read. */
  lemma {:induction false} ClaimStandsUnlessOverwritten(t: Table, pid: nat, caller: Address, env: seq<Interference>, pos: nat)
    requires pid < |t| && pos <= |env|
    requires forall k :: pos <= k < |env| ==> !Touches(env[k], pid)
    ensures ClaimLoop(t, pid, caller, env, pos).table[pid] == Some(ClaimRecord(caller))
    ensures ClaimLoop(t, pid, caller, env, pos).response == Some(ClaimLoop(t, pid, caller, env, pos).table)
    ensures Won(ClaimLoop(t, pid, caller, env, pos).table[pid], caller)
    decreases |env| - pos
  {
    var read := Step(t, env, pos);
    var before := Step(read.table, env, read.pos);
    if Writes(env, read.pos) {
      ClaimStandsUnlessOverwritten(before.table, pid, caller, env, before.pos);
    }
  }

  /** Other partitions' claims racing with this one: the final table is the
      other writers' work with this request's record at `pid`. */
  lemma ClaimKeepsOtherWrites(t: Table, pid: nat, caller: Address, env: seq<Interference>)
    requires pid < |t| && Claimable(t[pid])
    requires forall k :: 0 <= k < |env| ==> !Touches(env[k], pid)
    ensures RunSpec(t, pid, caller, env).table == Candidate(Replay(t, env, 0, RunSpec(t, pid, caller, env).consumed), pid, caller)
    ensures RunSpec(t, pid, caller, env).response == Some(RunSpec(t, pid, caller, env).table)
    ensures RunSpec(t, pid, caller, env).thrown == None
  {
    var r := RunSpec(t, pid, caller, env);
    var expected := Candidate(Replay(t, env, 0, r.consumed), pid, caller);
    ClaimStandsUnlessOverwritten(t, pid, caller, env, 0);
    forall j | 0 <= j < |t| && j != pid
      ensures r.table[j] == expected[j]
    {
      OtherSlotsFollowEnvironment(t, pid, caller, env, 0, j);
    }
  }

  /** Without interference a claimable request installs exactly its candidate
      and reports it. */
  lemma QuietClaimWins(t: Table, pid: nat, caller: Address, env: seq<Interference>)
    requires pid < |t| && Claimable(t[pid])
    requires forall k :: 0 <= k < |env| ==> env[k] == Quiet
    ensures RunSpec(t, pid, caller, env).table == Candidate(t, pid, caller)
    ensures RunSpec(t, pid, caller, env).response == Some(Candidate(t, pid, caller))
    ensures RunSpec(t, pid, caller, env).thrown == None
  {
    ClaimKeepsOtherWrites(t, pid, caller, env);
    ReplayQuiet(t, env, 0, RunSpec(t, pid, caller, env).consumed);
  }

  /** After a request has won its partition, any later request for the same
      partition, by the same member or another, leaves the table alone and
      stores no response. */
  lemma ResendChangesNothing(t: Table, pid: nat, caller: Address, env: seq<Interference>,
                             again: Address, later: seq<Interference>)
    requires pid < |t| && Claimable(t[pid])
    requires forall k :: 0 <= k < |env| ==> !Touches(env[k], pid)
    ensures var first := RunSpec(t, pid, caller, env);
            RunSpec(first.table, pid, again, later) == Outcome(first.table, None, None, 0, false, None)
  {
    ClaimKeepsOtherWrites(t, pid, caller, env);
  }

  /** The loop as its comment at :75 describes it: a request goes on only
      while the snapshot it is about to swap against is still claimable. */
  function ClaimLoopIntended(t: Table, pid: nat, caller: Address, env: seq<Interference>, pos: nat): (r: Outcome)
    requires pid < |t| && pos <= |env|
    ensures |r.table| == |t|
    ensures pos <= r.consumed <= |env|
    decreases |env| - pos
  {
    var read := Step(t, env, pos);
    if !Claimable(read.table[pid]) then
      Outcome(read.table, None, None, read.pos, false, None)
    else
      var candidate := Candidate(read.table, pid, caller);
      var before := Step(read.table, env, read.pos);
      if Writes(env, read.pos) then
        ClaimLoopIntended(before.table, pid, caller, env, before.pos)
      else
        var latest := Step(candidate, env, before.pos);
        var reply := Reread(latest.table, pid);
        Outcome(latest.table, reply.response, reply.thrown, latest.pos, true, read.table[pid])
  }

  /** The intended loop never replaces a slot another request already holds. */
  lemma {:induction false} IntendedNeverDisplacesClaim(t: Table, pid: nat, caller: Address, env: seq<Interference>, pos: nat)
    requires pid < |t| && pos <= |env|
    ensures ClaimLoopIntended(t, pid, caller, env, pos).installed ==> Claimable(ClaimLoopIntended(t, pid, caller, env, pos).displaced)
    decreases |env| - pos
  {
    var read := Step(t, env, pos);
    if Claimable(read.table[pid]) && Writes(env, read.pos) {
      var before := Step(read.table, env, read.pos);
      IntendedNeverDisplacesClaim(before.table, pid, caller, env, before.pos);
    }
  }

  /** Where no other writer reaches the claimed slot, the intended loop and the
      loop as written do the same thing: it still retries a swap that lost to
      an unrelated write and still wins the slot. */
  lemma {:induction false} IntendedAgrees(t: Table, pid: nat, caller: Address, env: seq<Interference>, pos: nat)
    requires pid < |t| && pos <= |env| && Claimable(t[pid])
    requires forall k :: pos <= k < |env| ==> !Touches(env[k], pid)
    ensures ClaimLoopIntended(t, pid, caller, env, pos) == ClaimLoop(t, pid, caller, env, pos)
    decreases |env| - pos
  {
    var read := Step(t, env, pos);
    var before := Step(read.table, env, read.pos);
    if Writes(env, read.pos) {
      IntendedAgrees(before.table, pid, caller, env, before.pos);
    }
  }
}
