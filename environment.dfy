/** Other writers of the same job table. A run is given a finite schedule of
    interference; each yield point of the claim loop consumes one entry, and
    once the schedule is used up nobody else writes. */
module Environment {
  import opened Partitions
  import opened ProcessInformation

  /** At one yield point another writer either stays quiet or republishes the
      table with one slot replaced (an index past the end republishes an
      equal copy, which still counts as a new reference). */
  datatype Interference = Quiet | Replace(index: nat, slot: Option<Record>)

  predicate Touches(w: Interference, j: nat) {
    w.Replace? && w.index == j
  }

  /** True when the schedule has a write at position `p`. */
  predicate Writes(env: seq<Interference>, p: nat) {
    p < |env| && env[p].Replace?
  }

  function Apply(t: Table, w: Interference): (r: Table)
    ensures |r| == |t|
    ensures forall j :: 0 <= j < |t| ==> r[j] == (if Touches(w, j) then w.slot else t[j])
  {
    match w
    case Quiet => t
    case Replace(i, s) => if i < |t| then t[i := s] else t
  }

  datatype Stepped = Stepped(table: Table, pos: nat)

  /** One yield point: the table after whatever the schedule does there. */
  function Step(t: Table, env: seq<Interference>, pos: nat): (s: Stepped)
    ensures |s.table| == |t|
  {
    if pos < |env| then Stepped(Apply(t, env[pos]), pos + 1) else Stepped(t, pos)
  }

  /** The table after the schedule's entries `p` up to `q` alone. */
  function Replay(t: Table, env: seq<Interference>, p: nat, q: nat): (r: Table)
    requires p <= q <= |env|
    ensures |r| == |t|
    decreases q - p
  {
    if p == q then t else Replay(Apply(t, env[p]), env, p + 1, q)
  }

  lemma StepIsReplay(t: Table, env: seq<Interference>, p: nat)
    requires p <= |env|
    ensures Step(t, env, p).pos <= |env|
    ensures Step(t, env, p).table == Replay(t, env, p, Step(t, env, p).pos)
  {
    if p < |env| {
      assert Replay(Apply(t, env[p]), env, p + 1, p + 1) == Apply(t, env[p]);
    }
  }

  /** Replaying a stretch of the schedule is replaying its two halves. */
  lemma {:induction false} ReplayThrough(t: Table, env: seq<Interference>, p: nat, m: nat, q: nat)
    requires p <= m <= q <= |env|
    ensures Replay(t, env, p, q) == Replay(Replay(t, env, p, m), env, m, q)
    decreases m - p
  {
    if p < m {
      ReplayThrough(Apply(t, env[p]), env, p + 1, m, q);
    }
  }

  /** What the schedule leaves in slot `j` depends only on what slot `j` held. */
  lemma {:induction false} ReplaySlotLocal(a: Table, b: Table, env: seq<Interference>, p: nat, q: nat, j: nat)
    requires p <= q <= |env| && |a| == |b| && j < |a| && a[j] == b[j]
    ensures Replay(a, env, p, q)[j] == Replay(b, env, p, q)[j]
    decreases q - p
  {
    if p < q {
      ReplaySlotLocal(Apply(a, env[p]), Apply(b, env[p]), env, p + 1, q, j);
    }
  }

  /** A schedule of quiet entries changes nothing. */
  lemma {:induction false} ReplayQuiet(t: Table, env: seq<Interference>, p: nat, q: nat)
    requires p <= q <= |env|
    requires forall k :: p <= k < q ==> env[k] == Quiet
    ensures Replay(t, env, p, q) == t
    decreases q - p
  {
    if p < q {
      ReplayQuiet(Apply(t, env[p]), env, p + 1, q);
    }
  }

  /** Runs the schedule's entry at `pos` against the holder. A writer goes
      through the same compare-and-swap, which succeeds because nothing runs
      between its read and its swap. */
  method EnvironmentStep(info: JobProcessInformation, env: seq<Interference>, pos: nat) returns (next: nat)
    requires info.Valid()
    modifies info`partitionStates, info`version
    ensures info.Valid()
    ensures next == Step(old(info.partitionStates), env, pos).pos
    ensures info.partitionStates == Step(old(info.partitionStates), env, pos).table
    ensures info.version == old(info.version) + (if Writes(env, pos) then 1 else 0)
  {
    next := pos;
    if pos < |env| {
      next := pos + 1;
      if env[pos].Replace? {
        var snapshot := info.GetPartitionStates();
        var ok := info.UpdatePartitionState(snapshot.version, Apply(snapshot.states, env[pos]));
      }
    }
  }
}
