/**
 * What the steps of the publication protocol (job/job.go) bring about, beside the safety that JobModel states: a
 * submission left alone does become ready, and the worker and the drainer may record it in either order.
 */
module JobLaws {
  import opened Machine
  import opened JobModel

  /** The fields the pool keeps are the same, counters compared by value. */
  ghost predicate SameFields(a: Pool, b: Pool) {
    && a.next == b.next && a.pending == b.pending && a.drainedSequence == b.drainedSequence && a.channel == b.channel
    && forall id: nat :: CountersSame(a, b, id)
  }

  ghost predicate CountersSame(a: Pool, b: Pool, id: nat) {
    Get(a.ready, id) == Get(b.ready, id) && Get(a.drainedEarly, id) == Get(b.drainedEarly, id)
  }

  lemma SameBoth(a: Pool, b: Pool, c: Pool)
    requires SameFields(a, c) && SameFields(b, c)
    ensures SameFields(a, b)
  {
    forall id: nat ensures CountersSame(a, b, id) {
      assert CountersSame(a, c, id) && CountersSame(b, c, id);
    }
  }

  /** Every submission up to f that is still pending, other than q, is ready. */
  ghost predicate OthersReady(pending: map<nat, bool>, q: nat, f: nat) {
    forall r <- pending :: r <= f && r != q ==> pending[r]
  }

  /** The worker's record makes exactly its own submission ready, unless the drainer was there first. */
  lemma BookMeaning(p: Pool, q: nat, f: nat)
    requires Inv(p) && Enabled(p, Book(q))
    ensures
      var p' := Apply(p, Book(q));
      && p'.jobs == p.jobs[q := p.jobs[q].(booked := true)] && p'.channel == p.channel && p'.next == p.next
      && (q in p.pending ==> p'.pending == p.pending[q := true] && p'.drainedSequence == p.drainedSequence)
      && (q !in p.pending ==> p'.pending == p.pending && p'.drainedSequence == p.drainedSequence - {q} && q in p.drainedSequence)
      && (ReadyThrough(p', f) <==> OthersReady(p.pending, q, f))
  {
    BookFieldsMean(p, q);
    var p' := Apply(p, Book(q));
    if q in p.pending {
      forall r | r in p.pending && r != q ensures p'.pending[r] == p.pending[r] {}
    }
  }

  lemma BookFieldsMean(p: Pool, q: nat)
    requires Recorded(p) && Enabled(p, Book(q))
    ensures
      var p' := Apply(p, Book(q));
      && p'.jobs == p.jobs[q := p.jobs[q].(booked := true)] && p'.channel == p.channel && p'.next == p.next
      && (q in p.pending ==> p'.pending == p.pending[q := true] && p'.drainedSequence == p.drainedSequence)
      && (q !in p.pending ==> p'.pending == p.pending && p'.drainedSequence == p.drainedSequence - {q} && q in p.drainedSequence)
  {
    assert q in p.pending <==> !p.jobs[q].drained;
    assert q in p.drainedSequence <==> p.jobs[q].drained && !p.jobs[q].booked;
  }

  /** The drainer's record ends the submission's wait; it is remembered only for a worker yet to record it. */
  lemma BookDrainMeaning(p: Pool, q: nat)
    requires Inv(p) && Enabled(p, BookDrain(q))
    ensures
      var p' := Apply(p, BookDrain(q));
      && p'.jobs == p.jobs[q := p.jobs[q].(drained := true)] && p'.channel == p.channel && p'.next == p.next
      && q in p.pending && p'.pending == p.pending - {q}
      && p'.drainedSequence == (if p.pending[q] then p.drainedSequence else p.drainedSequence + {q})
  {}

  /** Which counter a record moves, and that it moves no other job's. */
  lemma BookCountersMean(p: Pool, q: nat, id: nat)
    requires Enabled(p, Book(q))
    ensures
      var p' := Apply(p, Book(q));
      && (id != p.jobs[q].id ==> CountersSame(p', p, id))
      && (id == p.jobs[q].id && Get(p.drainedEarly, id) > 0 ==> Get(p'.drainedEarly, id) == Get(p.drainedEarly, id) - 1 && Get(p'.ready, id) == Get(p.ready, id))
      && (id == p.jobs[q].id && Get(p.drainedEarly, id) == 0 ==> Get(p'.drainedEarly, id) == 0 && Get(p'.ready, id) == Get(p.ready, id) + 1)
  {}

  lemma BookDrainCountersMean(p: Pool, q: nat, id: nat)
    requires Enabled(p, BookDrain(q))
    ensures
      var p' := Apply(p, BookDrain(q));
      && (id != p.jobs[q].id ==> CountersSame(p', p, id))
      && (id == p.jobs[q].id && Get(p.ready, id) > 0 ==> Get(p'.ready, id) == Get(p.ready, id) - 1 && Get(p'.drainedEarly, id) == Get(p.drainedEarly, id))
      && (id == p.jobs[q].id && Get(p.ready, id) == 0 ==> Get(p'.ready, id) == 0 && Get(p'.drainedEarly, id) == Get(p.drainedEarly, id) + 1)
  {}

  ghost predicate AwaitsBoth(p: Pool, q: nat) {
    q in p.jobs && p.jobs[q].sent && p.jobs[q].received && !p.jobs[q].booked && !p.jobs[q].drained
  }

  lemma WorkerFirstCounters(p: Pool, q: nat, id: nat)
    requires Counted(p, id) && Enabled(p, Book(q)) && Enabled(Apply(p, Book(q)), BookDrain(q)) && Apply(p, Book(q)).jobs[q].id == p.jobs[q].id
    ensures CountersSame(Apply(Apply(p, Book(q)), BookDrain(q)), p, id)
  {
    BookCountersMean(p, q, id);
    BookDrainCountersMean(Apply(p, Book(q)), q, id);
  }

  lemma DrainerFirstCounters(p: Pool, q: nat, id: nat)
    requires Counted(p, id) && Enabled(p, BookDrain(q)) && Enabled(Apply(p, BookDrain(q)), Book(q)) && Apply(p, BookDrain(q)).jobs[q].id == p.jobs[q].id
    ensures CountersSame(Apply(Apply(p, BookDrain(q)), Book(q)), p, id)
  {
    BookDrainCountersMean(p, q, id);
    BookCountersMean(Apply(p, BookDrain(q)), q, id);
  }

  /** Worker first. */
  lemma BookThenDrain(p: Pool, q: nat)
    requires Inv(p) && AwaitsBoth(p, q)
    ensures Enabled(p, Book(q)) && Enabled(Apply(p, Book(q)), BookDrain(q))
    ensures
      var a := Apply(Apply(p, Book(q)), BookDrain(q));
      && SameFields(a, p.(pending := p.pending - {q})) && a.jobs == p.jobs[q := p.jobs[q].(booked := true, drained := true)]
  {
    StepKeeps(p, Book(q));
    BookFieldsMean(p, q);
    BookDrainMeaning(Apply(p, Book(q)), q);
    forall id: nat ensures CountersSame(Apply(Apply(p, Book(q)), BookDrain(q)), p.(pending := p.pending - {q}), id) {
      WorkerFirstCounters(p, q, id);
    }
    assert p.jobs[q := p.jobs[q].(booked := true)][q := p.jobs[q].(booked := true, drained := true)] == p.jobs[q := p.jobs[q].(booked := true, drained := true)];
  }

  /** Drainer first. */
  lemma DrainThenBook(p: Pool, q: nat)
    requires Inv(p) && AwaitsBoth(p, q)
    ensures Enabled(p, BookDrain(q)) && Enabled(Apply(p, BookDrain(q)), Book(q))
    ensures
      var b := Apply(Apply(p, BookDrain(q)), Book(q));
      && SameFields(b, p.(pending := p.pending - {q})) && b.jobs == p.jobs[q := p.jobs[q].(booked := true, drained := true)]
  {
    StepKeeps(p, BookDrain(q));
    BookDrainMeaning(p, q);
    BookFieldsMean(Apply(p, BookDrain(q)), q);
    assert q !in p.drainedSequence;
    assert p.drainedSequence + {q} - {q} == p.drainedSequence;
    forall id: nat ensures CountersSame(Apply(Apply(p, BookDrain(q)), Book(q)), p.(pending := p.pending - {q}), id) {
      DrainerFirstCounters(p, q, id);
    }
    assert p.jobs[q := p.jobs[q].(drained := true)][q := p.jobs[q].(booked := true, drained := true)] == p.jobs[q := p.jobs[q].(booked := true, drained := true)];
  }

  /**
   * Recording by the worker and recording by the drainer commute: in either order the submission is booked and
   * drained, waits nowhere, and the job's counters are where they were.
   */
  lemma OrderDoesNotMatter(p: Pool, q: nat)
    requires Inv(p) && AwaitsBoth(p, q)
    ensures Possible(p, [Book(q), BookDrain(q)]) && Possible(p, [BookDrain(q), Book(q)])
    ensures
      var a, b := Run(p, [Book(q), BookDrain(q)]), Run(p, [BookDrain(q), Book(q)]);
      && SameFields(a, b) && SameFields(a, p.(pending := p.pending - {q}))
      && a.jobs == b.jobs == p.jobs[q := p.jobs[q].(booked := true, drained := true)]
  {
    BookThenDrain(p, q);
    DrainThenBook(p, q);
    RunTwo(p, Book(q), BookDrain(q));
    RunTwo(p, BookDrain(q), Book(q));
    SameBoth(Apply(Apply(p, Book(q)), BookDrain(q)), Apply(Apply(p, BookDrain(q)), Book(q)), p.(pending := p.pending - {q}));
  }

  lemma RunOne(p: Pool, s: Step)
    requires Enabled(p, s)
    ensures Possible(p, [s]) && Run(p, [s]) == Apply(p, s)
  {
    assert [s][1..] == [];
  }

  lemma RunNext(p: Pool, s: Step, rest: seq<Step>)
    requires Enabled(p, s) && Possible(Apply(p, s), rest)
    ensures Possible(p, [s] + rest) && Run(p, [s] + rest) == Run(Apply(p, s), rest)
  {
    assert ([s] + rest)[1..] == rest;
  }

  lemma RunTwo(p: Pool, s: Step, t: Step)
    requires Enabled(p, s) && Enabled(Apply(p, s), t)
    ensures Possible(p, [s, t]) && Run(p, [s, t]) == Apply(Apply(p, s), t)
  {
    RunOne(Apply(p, s), t);
    RunNext(p, s, [t]);
    assert [s] + [t] == [s, t];
  }

  /** The state with one more submission, sent but recorded by nobody. */
  ghost function WithSent(p: Pool, id: nat): Pool {
    var q := p.next + 1;
    p.(next := q, pending := p.pending[q := false], channel := p.channel + [q], jobs := p.jobs[q := Job(id, false, true, false, false, false)])
  }

  lemma AssignedAndSent(p: Pool, id: nat)
    requires Inv(p) && p.next < MAX64
    ensures Enabled(p, Assign(id)) && Enabled(Apply(p, Assign(id)), Send(p.next + 1))
    ensures Apply(Apply(p, Assign(id)), Send(p.next + 1)) == WithSent(p, id) && Inv(WithSent(p, id)) && p.next + 1 !in p.pending
  {
    var a := Apply(p, Assign(id));
    StepKeeps(p, Assign(id));
    StepKeeps(a, Send(p.next + 1));
  }

  /** A run that starts by assigning and sending a submission. */
  lemma SentThen(p: Pool, id: nat, rest: seq<Step>)
    requires Inv(p) && p.next < MAX64 && Possible(WithSent(p, id), rest)
    ensures Possible(p, [Assign(id)] + ([Send(p.next + 1)] + rest))
    ensures Run(p, [Assign(id)] + ([Send(p.next + 1)] + rest)) == Run(WithSent(p, id), rest)
  {
    AssignedAndSent(p, id);
    RunNext(Apply(p, Assign(id)), Send(p.next + 1), rest);
    RunNext(p, Assign(id), [Send(p.next + 1)] + rest);
  }

  /** Assigned, sent and recorded with nobody interfering, a submission makes its frontier ready exactly when everything before it is. */
  lemma SubmittedBecomesReady(p: Pool, id: nat)
    requires Inv(p) && p.next < MAX64
    ensures
      var q := p.next + 1;
      var life := [Assign(id)] + ([Send(q)] + [Book(q)]);
      Possible(p, life) && (ReadyThrough(Run(p, life), q) <==> ReadyThrough(p, p.next)) && Run(p, life).channel == p.channel + [q]
  {
    RecordedAlone(p, id);
    SentThen(p, id, [Book(p.next + 1)]);
  }

  lemma RecordedAlone(p: Pool, id: nat)
    requires Inv(p) && p.next < MAX64
    ensures
      var q, b := p.next + 1, WithSent(p, id);
      Possible(b, [Book(q)]) && (ReadyThrough(Run(b, [Book(q)]), q) <==> ReadyThrough(p, p.next)) && Run(b, [Book(q)]).channel == p.channel + [q]
  {
    AssignedAndSent(p, id);
    ReadyAfterBook(p, id);
    RunOne(WithSent(p, id), Book(p.next + 1));
  }

  lemma ReadyAfterBook(p: Pool, id: nat)
    requires Recorded(p) && Inv(WithSent(p, id))
    ensures
      var q, b := p.next + 1, WithSent(p, id);
      Enabled(b, Book(q)) && (ReadyThrough(Apply(b, Book(q)), q) <==> ReadyThrough(p, p.next)) && Apply(b, Book(q)).channel == p.channel + [q]
  {
    BookMeaning(WithSent(p, id), p.next + 1, p.next + 1);
    NewestAside(p);
  }

  /** A submission pending above the mark adds nothing below it. */
  lemma NewestAside(p: Pool)
    requires forall r <- p.pending :: r <= p.next
    ensures OthersReady(p.pending[p.next + 1 := false], p.next + 1, p.next + 1) <==> ReadyThrough(p, p.next)
  {
    var more := p.pending[p.next + 1 := false];
    if OthersReady(more, p.next + 1, p.next + 1) {
      forall r | r in p.pending && r <= p.next ensures p.pending[r] { assert r in more && more[r]; }
    }
  }

  /** Received from an empty channel and recorded by both, a sent submission leaves the pool's fields without a trace of it. */
  lemma DrainedAlone(b: Pool, q: nat)
    requires Inv(b) && b.channel == [q] && q in b.jobs && !b.jobs[q].booked && !b.jobs[q].drained && b.jobs[q].sent
    ensures
      var rest := [Receive] + [BookDrain(q), Book(q)];
      && Possible(b, rest) && SameFields(Run(b, rest), b.(pending := b.pending - {q}, channel := []))
      && Run(b, rest).jobs == b.jobs[q := b.jobs[q].(received := true, booked := true, drained := true)]
  {
    ReceivedAlone(b, q);
    var c := Apply(b, Receive);
    DrainThenBook(c, q);
    RunTwo(c, BookDrain(q), Book(q));
    RunNext(b, Receive, [BookDrain(q), Book(q)]);
    forall id: nat ensures CountersSame(Apply(Apply(c, BookDrain(q)), Book(q)), b.(pending := b.pending - {q}, channel := []), id) {
      assert CountersSame(Apply(Apply(c, BookDrain(q)), Book(q)), c.(pending := c.pending - {q}), id);
    }
  }

  /** Its whole life over an empty channel leaves nothing behind but the number it used. */
  lemma LifeLeavesNothing(p: Pool, id: nat)
    requires Inv(p) && p.next < MAX64 && p.channel == []
    ensures
      var q := p.next + 1;
      var life := [Assign(id)] + ([Send(q)] + ([Receive] + [BookDrain(q), Book(q)]));
      Possible(p, life) && SameFields(Run(p, life), p.(next := q)) && Run(p, life).jobs == p.jobs[q := Job(id, false, true, true, true, true)]
  {
    SentIsDrained(p, id);
    SentThen(p, id, [Receive] + [BookDrain(p.next + 1), Book(p.next + 1)]);
  }

  lemma SentIsDrained(p: Pool, id: nat)
    requires Inv(p) && p.next < MAX64 && p.channel == []
    ensures
      var q := p.next + 1;
      var rest := [Receive] + [BookDrain(q), Book(q)];
      && Possible(WithSent(p, id), rest) && SameFields(Run(WithSent(p, id), rest), p.(next := q))
      && Run(WithSent(p, id), rest).jobs == p.jobs[q := Job(id, false, true, true, true, true)]
  {
    AssignedAndSent(p, id);
    SentFacts(p, id);
    DrainedAlone(WithSent(p, id), p.next + 1);
    NothingLeft(p, id, Run(WithSent(p, id), [Receive] + [BookDrain(p.next + 1), Book(p.next + 1)]));
  }

  lemma SentFacts(p: Pool, id: nat)
    requires p.channel == []
    ensures
      var q, b := p.next + 1, WithSent(p, id);
      && b.channel == [q] && q in b.jobs && b.jobs[q] == Job(id, false, true, false, false, false)
      && b.jobs[q := b.jobs[q].(received := true, booked := true, drained := true)] == p.jobs[q := Job(id, false, true, true, true, true)]
  {}

  lemma NothingLeft(p: Pool, id: nat, e: Pool)
    requires p.channel == [] && p.next + 1 !in p.pending
    requires SameFields(e, WithSent(p, id).(pending := WithSent(p, id).pending - {p.next + 1}, channel := []))
    ensures SameFields(e, p.(next := p.next + 1))
  {
    var b := WithSent(p, id);
    assert b.pending - {p.next + 1} == p.pending;
    ThroughCounters(e, b.(pending := b.pending - {p.next + 1}, channel := []), p.(next := p.next + 1));
  }

  lemma ThroughCounters(e: Pool, b: Pool, p: Pool)
    requires SameFields(e, b) && b.next == p.next && b.pending == p.pending && b.drainedSequence == p.drainedSequence && b.channel == p.channel
    requires b.ready == p.ready && b.drainedEarly == p.drainedEarly
    ensures SameFields(e, p)
  {
    forall id: nat ensures CountersSame(e, p, id) { assert CountersSame(e, b, id); }
  }

  lemma ReceivedAlone(b: Pool, q: nat)
    requires Inv(b) && b.channel == [q]
    ensures Enabled(b, Receive) && Inv(Apply(b, Receive)) && Apply(b, Receive) == b.(channel := [], jobs := b.jobs[q := b.jobs[q].(received := true)])
  {
    StepKeeps(b, Receive);
  }
}
