/**
 * The publication protocol and the ordered drain together (job/job.go). Between any two drains workers assign, send and
 * record as they like; the one drainer receives results into its batch and, when it finds the channel empty, commits the
 * batch in submission order. Results sent after that moment are not in the batch, so committing is one step here.
 */
module JobOrder {
  import opened JobModel
  import opened JobPools
  import opened Ordering

  /** The pool, the results received and not yet committed, and the application state. */
  datatype World<!W> = World(pool: Pool, batch: seq<nat>, app: W)

  datatype Event<!W> = Act(step: Step) | Flush(out: seq<Result<W>>)

  /** The results of a list of submissions. */
  function Results<W>(result: nat -> Result<W>, order: seq<nat>): (out: seq<Result<W>>)
    ensures |out| == |order| && forall i | 0 <= i < |order| :: out[i] == result(order[i])
  {
    seq(|order|, i requires 0 <= i < |order| => result(order[i]))
  }

  ghost predicate Rising(s: seq<nat>) {
    forall i, j | 0 <= i < j < |s| :: s[i] < s[j]
  }

  /** A flush happens when the channel is found empty and commits what DrainOrdered makes of the batch. */
  ghost predicate Allowed<W>(x: World<W>, e: Event<W>, result: nat -> Result<W>) {
    match e
    case Act(s) => Enabled(x.pool, s)
    case Flush(out) => x.pool.channel == [] && IsSortOf(out, Results(result, x.batch), SequenceKey<W>())
  }

  ghost function After<W>(x: World<W>, e: Event<W>, result: nat -> Result<W>): World<W>
    requires Allowed(x, e, result)
  {
    match e
    case Act(s) => x.(pool := Apply(x.pool, s), batch := if s.Receive? then x.batch + [x.pool.channel[0]] else x.batch)
    case Flush(out) => x.(batch := [], app := CommitAll(out, x.app).0)
  }

  /** The submissions one event commits. */
  ghost function Committed<W>(x: World<W>, e: Event<W>, result: nat -> Result<W>): seq<nat>
    requires Allowed(x, e, result)
  {
    if e.Flush? then CommitAll(e.out, x.app).1 else []
  }

  ghost predicate Feasible<W>(x: World<W>, events: seq<Event<W>>, result: nat -> Result<W>)
    decreases |events|
  {
    events == [] || (Allowed(x, events[0], result) && Feasible(After(x, events[0], result), events[1..], result))
  }

  /** All submissions a run commits, in the order of the commits. */
  ghost function CommitsOf<W>(x: World<W>, events: seq<Event<W>>, result: nat -> Result<W>): seq<nat>
    requires Feasible(x, events, result)
    decreases |events|
  {
    if events == [] then []
    else Committed(x, events[0], result) + CommitsOf(After(x, events[0], result), events[1..], result)
  }

  ghost predicate Consistent<W>(x: World<W>) {
    && Inv(x.pool)
    && (forall i | 0 <= i < |x.batch| :: x.batch[i] in x.pool.jobs && x.pool.jobs[x.batch[i]].received)
    && (forall i, j | 0 <= i < j < |x.batch| :: x.batch[i] != x.batch[j])
  }

  ghost predicate Faithful<W>(result: nat -> Result<W>) {
    forall q: nat :: result(q).sequence == q
  }

  // ----- a ready frontier is received by the drain that follows -----

  /** Everything assigned up to f has reached the drainer. */
  ghost predicate AllReceived(p: Pool, f: nat) {
    forall q: nat | 1 <= q <= f :: q in p.jobs && p.jobs[q].received
  }

  /** When a ready frontier meets an empty channel, every submission up to it has been received. */
  lemma FrontierReceived(p: Pool, f: nat)
    requires Inv(p) && f <= p.next && ReadyThrough(p, f) && p.channel == []
    ensures AllReceived(p, f)
  {
    forall q: nat | 1 <= q <= f ensures q in p.jobs && p.jobs[q].received {
      assert q in p.jobs && Progress(p.jobs[q]);
      if !p.jobs[q].drained {
        assert q in p.pending && p.pending[q];
        assert p.jobs[q].sent;
      }
    }
  }

  /** The same at the end of any run that starts with a ready frontier. */
  lemma ReadyThenDrained(p: Pool, steps: seq<Step>, f: nat)
    requires Inv(p) && Possible(p, steps) && f <= p.next && ReadyThrough(p, f) && Run(p, steps).channel == []
    ensures AllReceived(Run(p, steps), f)
  {
    RunKeeps(p, steps);
    FrontierIsClosed(p, steps, f);
    NextGrows(p, steps);
    FrontierReceived(Run(p, steps), f);
  }

  lemma {:induction false} NextGrows(p: Pool, steps: seq<Step>)
    requires Possible(p, steps)
    ensures p.next <= Run(p, steps).next
    decreases |steps|
  {
    if steps != [] { NextGrows(Apply(p, steps[0]), steps[1..]); }
  }

  lemma StepKeepsReceived(p: Pool, s: Step, f: nat)
    requires Inv(p) && Enabled(p, s) && AllReceived(p, f)
    ensures AllReceived(Apply(p, s), f)
  {
    forall q: nat | 1 <= q <= f ensures q in Apply(p, s).jobs && Apply(p, s).jobs[q].received {
      assert q in p.jobs && p.jobs[q].received;
    }
  }

  lemma AfterKeeps<W>(x: World<W>, e: Event<W>, result: nat -> Result<W>)
    requires Consistent(x) && Allowed(x, e, result)
    ensures Consistent(After(x, e, result))
  {
    if e.Act? {
      StepKeeps(x.pool, e.step);
      var y := After(x, e, result);
      forall i | 0 <= i < |y.batch| ensures y.batch[i] in y.pool.jobs && y.pool.jobs[y.batch[i]].received {
        assert i < |x.batch| ==> y.batch[i] == x.batch[i];
        ReceivedStays(x.pool, e.step, y.batch[i]);
      }
    }
  }

  lemma ReceivedStays(p: Pool, s: Step, q: nat)
    requires Inv(p) && Enabled(p, s) && q in p.jobs && (p.jobs[q].received || (s.Receive? && p.channel[0] == q))
    ensures q in Apply(p, s).jobs && Apply(p, s).jobs[q].received
  {}

  // ----- what a flush commits -----

  /** The batch meets the precondition of DrainOrdered: no sequence was received twice. */
  lemma BatchIsDrainable<W>(x: World<W>, result: nat -> Result<W>)
    requires Consistent(x) && Faithful(result)
    ensures var r := Results(result, x.batch); forall i, j | 0 <= i < j < |r| :: r[i].sequence != r[j].sequence
  {}

  lemma FlushCommits<W>(x: World<W>, out: seq<Result<W>>, result: nat -> Result<W>)
    requires Allowed(x, Flush(out), result) && Faithful(result)
    ensures Rising(Committed(x, Flush(out), result))
    ensures forall q <- Committed(x, Flush(out), result) :: q in x.batch
  {
    AscendingSequences(out);
    CommitsInOrder(out, 0, |out|, x.app);
    var c := Committed(x, Flush(out), result);
    forall q | q in c ensures q in x.batch {
      var j :| 0 <= j < |c| && c[j] == q;
      var k :| 0 <= k < |out| && out[k].sequence == c[j];
      InBoth(out, Results(result, x.batch), out[k]);
    }
  }

  /** Once everything up to f was received and committed or discarded, only newer submissions are ever committed. */
  lemma {:induction false} OnlyNewer<W>(x: World<W>, events: seq<Event<W>>, result: nat -> Result<W>, f: nat)
    requires Consistent(x) && Feasible(x, events, result) && Faithful(result) && AllReceived(x.pool, f)
    requires forall i | 0 <= i < |x.batch| :: x.batch[i] > f
    ensures forall q <- CommitsOf(x, events, result) :: q > f
    decreases |events|
  {
    if events != [] {
      var e := events[0];
      AfterKeeps(x, e, result);
      if e.Act? {
        StepKeepsReceived(x.pool, e.step, f);
        if e.step.Receive? { assert !x.pool.jobs[x.pool.channel[0]].received; ChannelIsPositive(x.pool); }
      } else {
        FlushCommits(x, e.out, result);
      }
      OnlyNewer(After(x, e, result), events[1..], result, f);
    }
  }

  lemma ChannelIsPositive(p: Pool)
    requires Inv(p) && p.channel != []
    ensures p.channel[0] >= 1
  {
    assert p.channel[0] in p.jobs;
  }

  /** No commit of a submission up to f comes after one above f. */
  ghost predicate OldFirst(c: seq<nat>, f: nat) {
    forall i, j | 0 <= i < j < |c| && c[j] <= f :: c[i] <= f
  }

  /**
   * Once ReadyThrough(f) holds, then under every interleaving of workers and drains from there on, every commit of a
   * submission up to f precedes every commit of a later one.
   */
  lemma {:induction false} FrontierCommitsFirst<W>(x: World<W>, events: seq<Event<W>>, result: nat -> Result<W>, f: nat)
    requires Consistent(x) && Feasible(x, events, result) && Faithful(result)
    requires f <= x.pool.next && ReadyThrough(x.pool, f)
    ensures OldFirst(CommitsOf(x, events, result), f)
    decreases |events|
  {
    if events != [] {
      var e := events[0];
      AfterKeeps(x, e, result);
      var y := After(x, e, result);
      if e.Act? {
        StepKeepsFrontier(x.pool, e.step, f);
        FrontierCommitsFirst(y, events[1..], result, f);
        assert CommitsOf(x, events, result) == CommitsOf(y, events[1..], result);
      } else {
        FrontierReceived(x.pool, f);
        FlushCommits(x, e.out, result);
        OnlyNewer(y, events[1..], result, f);
        RisingThenNewer(Committed(x, e, result), CommitsOf(y, events[1..], result), f);
      }
    }
  }

  lemma RisingThenNewer(a: seq<nat>, b: seq<nat>, f: nat)
    requires Rising(a) && forall q <- b :: q > f
    ensures OldFirst(a + b, f)
  {
    var c := a + b;
    assert forall k | 0 <= k < |b| :: b[k] in b && c[|a| + k] == b[k];
  }
}
