/** Concrete claim requests, each fixing a table, a caller and a
    schedule of interference. */
module Scenarios {
  import opened Partitions
  import opened Environment
  import opened Claim

  function M1(): Address { Address("10.0.0.1", 5701) }
  function M2(): Address { Address("10.0.0.2", 5701) }
  function M3(): Address { Address("10.0.0.3", 5701) }

  /** A claim on an empty two-partition table wins partition 0. */
  lemma FirstClaimWins()
    ensures var r := RunSpec([None, None], 0, M1(), []);
            r.table == [Some(ClaimRecord(M1())), None] && r.response == Some(r.table) && r.thrown == None
  {
  }

  /** A second member asking for a partition already processed by the first
      changes nothing and gets no response. */
  lemma ClaimedPartitionIsRefused()
    ensures var t := [Some(ClaimRecord(M1())), None];
            var r := RunSpec(t, 0, M2(), []);
            r.table == t && r.response == None && r.thrown == None
  {
  }

  /** A released partition can be claimed again. */
  lemma WaitingPartitionIsClaimed()
    ensures var r := RunSpec([Some(Record(Some(M1()), Waiting))], 0, M3(), []);
            r.table == [Some(ClaimRecord(M3()))] && r.response == Some(r.table)
  {
  }

  /** A claim for partition 1 lands between this request's read and swap: the
      swap fails, the next pass copies the new table and both claims stand. */
  lemma ConcurrentClaimsOnTwoPartitions()
    ensures var r := RunSpec([None, None], 0, M1(), [Quiet, Replace(1, Some(ClaimRecord(M2())))]);
            r.table == [Some(ClaimRecord(M1())), Some(ClaimRecord(M2()))] && r.response == Some(r.table)
  {
  }

  /** Another member's record lands between the swap and the re-read: the
      request reports the re-read table, not the one it built, and so tells
      its caller that the partition went elsewhere. */
  lemma ReportsRereadTable()
    ensures var r := RunSpec([None], 0, M1(), [Quiet, Quiet, Replace(0, Some(ClaimRecord(M2())))]);
            r.response == Some([Some(ClaimRecord(M2()))]) && r.response != Some(Candidate([None], 0, M1())) &&
            !Won(r.response.value[0], M1()) && r.thrown == None
  {
    var env := [Quiet, Quiet, Replace(0, Some(ClaimRecord(M2())))];
    ClaimLoopPass([None], 0, M1(), env, 0);
    assert Step([None], env, 0) == Stepped([None], 1);
    assert Step([None], env, 1) == Stepped([None], 2);
    assert Step(Candidate([None], 0, M1()), env, 2) == Stepped([Some(ClaimRecord(M2()))], 3);
  }

  /** A slot emptied between the swap and the re-read makes run() dereference
      null: no response is stored. */
  lemma EmptiedSlotThrows()
    ensures var r := RunSpec([None], 0, M1(), [Quiet, Quiet, Replace(0, None)]);
            r.thrown == Some(NullPointer) && r.response == None
  {
  }

  /** An id outside the table fails in checkState before anything changes. */
  lemma OutOfRangeThrows()
    ensures RunSpec([None], 1, M1(), []) == Outcome([None], None, Some(ArrayIndexOutOfBounds), 0, false, None)
    ensures RunSpec([None], -1, M1(), []) == Outcome([None], None, Some(ArrayIndexOutOfBounds), 0, false, None)
  {
  }

  /** The loop as written: M2 wins partition 0 between M1's read and swap, M1's
      swap fails, and M1's next pass swaps anyway, replacing M2's record. Both
      requests see themselves as the winner. */
  lemma FailedSwapDisplacesClaim()
    ensures RunSpec([None], 0, M2(), []).table == [Some(ClaimRecord(M2()))]
    ensures Won(RunSpec([None], 0, M2(), []).response.value[0], M2())
    ensures var r := RunSpec([None], 0, M1(), [Quiet, Replace(0, Some(ClaimRecord(M2())))]);
            r.installed && r.displaced == Some(ClaimRecord(M2())) && !Claimable(r.displaced) &&
            r.table == [Some(ClaimRecord(M1()))] && Won(r.response.value[0], M1())
  {
  }

  /** The loop as written, first pass: M2's claim lands between checkState at
      entry and M1's first read. M1 copies M2's record away in a swap that
      succeeds, and both requests again see themselves as the winner. */
  lemma FirstPassDisplacesClaim()
    ensures var r := RunSpec([None], 0, M1(), [Replace(0, Some(ClaimRecord(M2())))]);
            r.installed && r.displaced == Some(ClaimRecord(M2())) && !Claimable(r.displaced) &&
            r.table == [Some(ClaimRecord(M1()))] && Won(r.response.value[0], M1())
  {
  }

  /** The intended loop on both schedules stops and leaves M2's claim. */
  lemma IntendedLoopKeepsClaim()
    ensures var r := ClaimLoopIntended([None], 0, M1(), [Quiet, Replace(0, Some(ClaimRecord(M2())))], 0);
            !r.installed && r.table == [Some(ClaimRecord(M2()))] && r.response == None
    ensures var r := ClaimLoopIntended([None], 0, M1(), [Replace(0, Some(ClaimRecord(M2())))], 0);
            !r.installed && r.table == [Some(ClaimRecord(M2()))] && r.response == None
  {
  }
}
