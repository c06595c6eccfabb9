/** The locked sections of the job pool on its own fields, and the ordered drain (job/job.go). */
module JobPools {
  import opened Machine
  import opened JobModel
  import opened Ordering

  class JobPool {
    var next: nat
    var pending: map<nat, bool>
    var drainedSequence: set<nat>
    var ready: map<nat, nat>
    var drainedEarly: map<nat, nat>

    constructor ()
      ensures next == 0 && pending == map[] && drainedSequence == {} && ready == map[] && drainedEarly == map[]
    {
      next, pending, drainedSequence, ready, drainedEarly := 0, map[], {}, map[], map[];
    }

    /** The shared fields seen as part of a protocol state with the given channel and progress. */
    ghost function View(channel: seq<nat>, jobs: map<nat, Job>): Pool
      reads this
    {
      Pool(next, pending, drainedSequence, ready, drainedEarly, channel, jobs)
    }

    /** Sequence assignment; the code panics when the counter would wrap. */
    method Assign(ghost id: nat, ghost channel: seq<nat>, ghost jobs: map<nat, Job>) returns (q: nat)
      requires next < MAX64
      modifies this
      ensures q == next && q == old(next) + 1
      ensures View(channel, jobs[q := Job(id, false, false, false, false, false)]) == Apply(old(View(channel, jobs)), Step.Assign(id))
    {
      next := next + 1;
      pending := pending[next := false];
      q := next;
    }

    /** A worker records the result it has just sent. */
    method Publish(q: nat, id: nat, ghost channel: seq<nat>, ghost jobs: map<nat, Job>)
      modifies this
      ensures View(channel, jobs) == BookFields(old(View(channel, jobs)), q, id)
    {
      if q in drainedSequence {
        drainedSequence := drainedSequence - {q};
      } else {
        pending := pending[q := true];
      }
      if id in drainedEarly && drainedEarly[id] > 0 {
        drainedEarly := drainedEarly[id := drainedEarly[id] - 1];
        if drainedEarly[id] == 0 { drainedEarly := drainedEarly - {id}; }
      } else {
        ready := ready[id := (if id in ready then ready[id] else 0) + 1];
      }
    }

    /** The drainer records the result it has just received. */
    method RecordDrain(q: nat, id: nat, ghost channel: seq<nat>, ghost jobs: map<nat, Job>)
      modifies this
      ensures View(channel, jobs) == BookDrainFields(old(View(channel, jobs)), q, id)
    {
      if q in pending {
        var wasReady := pending[q];
        pending := pending - {q};
        if !wasReady { drainedSequence := drainedSequence + {q}; }
      } else {
        drainedSequence := drainedSequence + {q};
      }
      if id in ready && ready[id] > 0 {
        ready := ready[id := ready[id] - 1];
        if ready[id] == 0 { ready := ready - {id}; }
      } else {
        drainedEarly := drainedEarly[id := (if id in drainedEarly then drainedEarly[id] else 0) + 1];
      }
    }

    /**
     * drain(true): receive until the channel is empty, recording each result under the lock; then sort by submission
     * sequence and commit in that order. `arrived` is what the drainer received, in channel order.
     */
    method DrainOrdered<W>(arrived: seq<Result<W>>, w: W, ghost channel: seq<nat>, ghost jobs: map<nat, Job>)
      returns (out: seq<Result<W>>, w': W, committed: seq<nat>, ghost states: seq<W>)
      requires forall i, j | 0 <= i < j < |arrived| :: arrived[i].sequence != arrived[j].sequence
      modifies this
      ensures View(channel, jobs) == BookDrainAll(old(View(channel, jobs)), arrived, |arrived|)
      ensures IsSortOf(out, arrived, SequenceKey<W>())
      ensures (w', committed) == CommitAll(out, w)
      ensures multiset(out) == multiset(arrived) && forall i, j | 0 <= i < j < |out| :: out[i].sequence < out[j].sequence
      ensures CommitsThrough(out, states) && states[0] == w && states[|out|] == w'
      ensures forall k | 0 <= k < |out| :: out[k].sequence in committed <==> !out[k].cancelled && !out[k].failed && out[k].allowed(states[k]) && out[k].valid(states[k])
      ensures forall i, j | 0 <= i < j < |committed| :: committed[i] < committed[j]
    {
      for n := 0 to |arrived|
        invariant View(channel, jobs) == BookDrainAll(old(View(channel, jobs)), arrived, n)
      {
        RecordDrain(arrived[n].sequence, arrived[n].jobID, channel, jobs);
      }
      out := Sort(arrived, (r: Result<W>) => Key(r.sequence, 0, 0));
      w', committed, states := CommitLoop(out, w);
      AscendingSequences(out);
      CommitsInOrder(out, 0, |out|, w);
      forall k | 0 <= k < |out|
        ensures out[k].sequence in committed <==> !out[k].cancelled && !out[k].failed && out[k].allowed(states[k]) && out[k].valid(states[k])
      {
        CommitsIff(out, k, w);
      }
    }

    /** The scan over the pending map, in arbitrary order. */
    method ReadyThrough(frontier: nat) returns (ok: bool)
      ensures ok <==> forall q <- pending :: q <= frontier ==> pending[q]
      ensures forall channel, jobs :: ok <==> JobModel.ReadyThrough(View(channel, jobs), frontier)
    {
      var todo := pending.Keys;
      while todo != {}
        invariant todo <= pending.Keys
        invariant forall q <- pending :: q !in todo && q <= frontier ==> pending[q]
      {
        var q :| q in todo;
        if q <= frontier && !pending[q] { return false; }
        todo := todo - {q};
      }
      ok := true;
    }
  }

  // ----- ordered drain -----

  /**
   * A received result. The guard, the version check and the mutation it performs are functions of
   * the application state W, because all three are evaluated on the draining thread at commit time.
   */
  datatype Result<!W> = Result(sequence: nat, jobID: nat, cancelled: bool, failed: bool,
                               allowed: W -> bool, valid: W -> bool, onCommit: W -> W)

  predicate Commits<W>(r: Result<W>, w: W) {
    !r.cancelled && !r.failed && r.allowed(w) && r.valid(w)
  }

  /** Commit results i..n in order: the state reached and the sequences that committed. */
  function CommitRange<W>(out: seq<Result<W>>, i: nat, n: nat, w: W): (W, seq<nat>)
    requires i <= n <= |out|
    decreases n - i
  {
    if i == n then (w, [])
    else if Commits(out[i], w) then
      var rest := CommitRange(out, i + 1, n, out[i].onCommit(w));
      (rest.0, [out[i].sequence] + rest.1)
    else CommitRange(out, i + 1, n, w)
  }

  function CommitAll<W>(out: seq<Result<W>>, w: W): (W, seq<nat>) {
    CommitRange(out, 0, |out|, w)
  }

  ghost function SequenceKey<W>(): Result<W> -> Key {
    (r: Result<W>) => Key(r.sequence, 0, 0)
  }

  /** The drainer's locked sections for the first n results received. */
  function BookDrainAll<W>(p: Pool, arrived: seq<Result<W>>, n: nat): Pool
    requires n <= |arrived|
  {
    if n == 0 then p else BookDrainFields(BookDrainAll(p, arrived, n - 1), arrived[n - 1].sequence, arrived[n - 1].jobID)
  }

  /**
   * The state after result k is its mutation of the state before it when the result is uncancelled, error-free, allowed
   * and version-valid there, and that state unchanged otherwise.
   */
  ghost predicate CommitsThrough<W>(out: seq<Result<W>>, states: seq<W>) {
    && |states| == |out| + 1
    && forall k | 0 <= k < |out| ::
         states[k + 1] == if !out[k].cancelled && !out[k].failed && out[k].allowed(states[k]) && out[k].valid(states[k]) then out[k].onCommit(states[k]) else states[k]
  }

  /** The commit loop, with the states it passes through. */
  method CommitLoop<W>(out: seq<Result<W>>, w: W) returns (w': W, committed: seq<nat>, ghost states: seq<W>)
    ensures (w', committed) == CommitAll(out, w) && states == StatesOf(out, w)
    ensures CommitsThrough(out, states) && states[0] == w && states[|out|] == w'
  {
    states := StatesOf(out, w);
    forall k | 0 <= k < |out|
      ensures states[k + 1] == if !out[k].cancelled && !out[k].failed && out[k].allowed(states[k]) && out[k].valid(states[k]) then out[k].onCommit(states[k]) else states[k]
    {
      StateLaw(out, k, w);
    }
    w', committed := w, [];
    var i := 0;
    ghost var all := CommitAll(out, w);
    assert all.1 == [] + all.1;
    while i < |out|
      invariant 0 <= i <= |out|
      invariant all.0 == CommitRange(out, i, |out|, w').0
      invariant all.1 == committed + CommitRange(out, i, |out|, w').1
    {
      var r := out[i];
      if !r.cancelled && !r.failed && r.allowed(w') && r.valid(w') {
        w' := r.onCommit(w');
        committed := committed + [r.sequence];
      }
      i := i + 1;
    }
    assert committed + [] == committed;
  }

  /** The outcome of an ordered drain depends only on which results were published, not on their arrival order. */
  lemma ArrivalOrderIrrelevant<W>(a: seq<Result<W>>, b: seq<Result<W>>, outA: seq<Result<W>>, outB: seq<Result<W>>, w: W)
    requires multiset(a) == multiset(b)
    requires IsSortOf(outA, a, SequenceKey<W>()) && IsSortOf(outB, b, SequenceKey<W>())
    ensures outA == outB && CommitAll(outA, w) == CommitAll(outB, w)
  {
    SortUnique(outA, outB, SequenceKey<W>());
  }

  lemma AscendingSequences<W>(out: seq<Result<W>>)
    requires Ascending(out, SequenceKey<W>())
    ensures forall i, j | 0 <= i < j < |out| :: out[i].sequence < out[j].sequence
  {
    forall i, j | 0 <= i < j < |out| ensures out[i].sequence < out[j].sequence {
      assert Before(SequenceKey<W>()(out[i]), SequenceKey<W>()(out[j]));
    }
  }

  /** Commits happen in strictly increasing submission order, and only for results of the range. */
  ghost predicate OrderedWithin<W>(committed: seq<nat>, out: seq<Result<W>>, i: nat, n: nat)
    requires n <= |out|
  {
    && (forall j, k | 0 <= j < k < |committed| :: committed[j] < committed[k])
    && (forall j | 0 <= j < |committed| :: exists k | i <= k < n :: out[k].sequence == committed[j])
  }

  lemma {:induction false} CommitsInOrder<W>(out: seq<Result<W>>, i: nat, n: nat, w: W)
    requires i <= n <= |out| && forall j, k | 0 <= j < k < |out| :: out[j].sequence < out[k].sequence
    ensures OrderedWithin(CommitRange(out, i, n, w).1, out, i, n)
    decreases n - i
  {
    if i < n {
      if Commits(out[i], w) {
        CommitsInOrder(out, i + 1, n, out[i].onCommit(w));
        var rest := CommitRange(out, i + 1, n, out[i].onCommit(w)).1;
        var all := [out[i].sequence] + rest;
        forall j | 0 <= j < |all| ensures exists k | i <= k < n :: out[k].sequence == all[j] {
          if j == 0 { assert out[i].sequence == all[j]; }
        }
        forall j, k | 0 <= j < k < |all| ensures all[j] < all[k] {
          var m :| i + 1 <= m < n && out[m].sequence == rest[k - 1];
        }
      } else {
        CommitsInOrder(out, i + 1, n, w);
      }
    }
  }

  /** A batch split anywhere: the first part commits completely before the second starts. */
  lemma {:induction false} CommitSplits<W>(out: seq<Result<W>>, i: nat, m: nat, n: nat, w: W)
    requires i <= m <= n <= |out|
    ensures
      var first := CommitRange(out, i, m, w);
      var second := CommitRange(out, m, n, first.0);
      CommitRange(out, i, n, w) == (second.0, first.1 + second.1)
    decreases m - i
  {
    if i < m {
      if Commits(out[i], w) {
        CommitSplits(out, i + 1, m, n, out[i].onCommit(w));
        var first := CommitRange(out, i + 1, m, out[i].onCommit(w));
        var second := CommitRange(out, m, n, first.0);
        assert [out[i].sequence] + (first.1 + second.1) == ([out[i].sequence] + first.1) + second.1;
      } else {
        CommitSplits(out, i + 1, m, n, w);
      }
    } else {
      assert [] + CommitRange(out, m, n, w).1 == CommitRange(out, m, n, w).1;
    }
  }

  /** The application states before, between and after the results. */
  function StatesOf<W>(out: seq<Result<W>>, w: W): (states: seq<W>)
    ensures |states| == |out| + 1 && forall k | 0 <= k <= |out| :: states[k] == CommitRange(out, 0, k, w).0
  {
    seq(|out| + 1, k requires 0 <= k <= |out| => CommitRange(out, 0, k, w).0)
  }

  /**
   * The state after result k is its mutation of the state before it when the result is uncancelled, error-free, allowed
   * and version-valid there, and that state unchanged otherwise.
   */
  lemma StateLaw<W>(out: seq<Result<W>>, k: nat, w: W)
    requires k < |out|
    ensures
      var before := CommitRange(out, 0, k, w).0;
      CommitRange(out, 0, k + 1, w).0 ==
        if !out[k].cancelled && !out[k].failed && out[k].allowed(before) && out[k].valid(before) then out[k].onCommit(before) else before
  {
    CommitSplits(out, 0, k, k + 1, w);
    var before := CommitRange(out, 0, k, w).0;
    OneCommit(out, k, before);
  }

  lemma OneCommit<W>(out: seq<Result<W>>, k: nat, w: W)
    requires k < |out|
    ensures CommitRange(out, k, k + 1, w) ==
      if !out[k].cancelled && !out[k].failed && out[k].allowed(w) && out[k].valid(w) then (out[k].onCommit(w), [out[k].sequence]) else (w, [])
  {
    assert CommitRange(out, k + 1, k + 1, w) == (w, []) && CommitRange(out, k + 1, k + 1, out[k].onCommit(w)) == (out[k].onCommit(w), []);
    assert [out[k].sequence] + [] == [out[k].sequence];
  }

  /**
   * A result commits exactly when it is uncancelled, error-free, allowed by its fence and version-valid
   * in the state left by the commits of all smaller sequences.
   */
  lemma CommitsIff<W>(out: seq<Result<W>>, k: nat, w: W)
    requires Ascending(out, SequenceKey<W>()) && k < |out|
    ensures
      var before := CommitRange(out, 0, k, w).0;
      out[k].sequence in CommitAll(out, w).1 <==>
        !out[k].cancelled && !out[k].failed && out[k].allowed(before) && out[k].valid(before)
  {
    AscendingSequences(out);
    var before := CommitRange(out, 0, k, w);
    var here := CommitRange(out, k, k + 1, before.0);
    var after := CommitRange(out, k + 1, |out|, here.0);
    CommitSplits(out, 0, k, |out|, w);
    CommitSplits(out, k, k + 1, |out|, before.0);
    OneCommit(out, k, before.0);
    CommitsInOrder(out, 0, k, w);
    CommitsInOrder(out, k + 1, |out|, here.0);
    assert CommitAll(out, w).1 == before.1 + (here.1 + after.1);
    assert out[k].sequence !in before.1 && out[k].sequence !in after.1;
  }
}
