/**
 * The publication protocol of job/job.go as an interleaved step relation. A worker sends its
 * result and only afterwards records it under the lock; the drainer may receive in between.
 * Each step is one atomic action of the code: a channel operation or a locked section.
 */
module JobModel {
  import opened Machine

  /** How far one submission has come. `dead` is a refused submission or a dropped result. */
  datatype Job = Job(id: nat, dead: bool, sent: bool, booked: bool, received: bool, drained: bool)

  /** The pool's shared fields, plus (ghost) the true progress of every submission ever assigned. */
  datatype Pool = Pool(next: nat, pending: map<nat, bool>, drainedSequence: set<nat>,
                       ready: map<nat, nat>, drainedEarly: map<nat, nat>,
                       channel: seq<nat>, jobs: map<nat, Job>)

  datatype Step =
    | Assign(id: nat)
    | Refuse(sequence: nat)
    | Send(sequence: nat)
    | Drop(sequence: nat)
    | Book(sequence: nat)
    | Receive
    | BookDrain(sequence: nat)

  const EMPTY := Pool(0, map[], {}, map[], map[], [], map[])

  function Get(m: map<nat, nat>, k: nat): nat {
    if k in m then m[k] else 0
  }

  /** Decrement, deleting the key at zero. */
  function Less(m: map<nat, nat>, k: nat): map<nat, nat>
    requires Get(m, k) > 0
  {
    if m[k] == 1 then m - {k} else m[k := m[k] - 1]
  }

  function More(m: map<nat, nat>, k: nat): map<nat, nat> {
    m[k := Get(m, k) + 1]
  }

  /** Which steps the program counters of the threads allow. The capacity of the channel is left open. */
  predicate Enabled(p: Pool, s: Step) {
    match s
    case Assign(_) => p.next < MAX64
    case Refuse(q) => q in p.jobs && !p.jobs[q].dead && !p.jobs[q].sent
    case Send(q) => q in p.jobs && !p.jobs[q].dead && !p.jobs[q].sent
    case Drop(q) => q in p.jobs && !p.jobs[q].dead && !p.jobs[q].sent
    case Book(q) => q in p.jobs && p.jobs[q].sent && !p.jobs[q].booked
    case Receive => p.channel != [] && p.channel[0] in p.jobs
    case BookDrain(q) => q in p.jobs && p.jobs[q].received && !p.jobs[q].drained
  }

  /** The worker's locked section after its send (job/job.go:980-994). */
  function BookFields(p: Pool, q: nat, id: nat): Pool {
    var p := if q in p.drainedSequence then p.(drainedSequence := p.drainedSequence - {q}) else p.(pending := p.pending[q := true]);
    if Get(p.drainedEarly, id) > 0 then p.(drainedEarly := Less(p.drainedEarly, id)) else p.(ready := More(p.ready, id))
  }

  /** The drainer's locked section after its receive (job/job.go:696-713). */
  function BookDrainFields(p: Pool, q: nat, id: nat): Pool {
    var p :=
      if q in p.pending then
        var p' := p.(pending := p.pending - {q});
        if p.pending[q] then p' else p'.(drainedSequence := p.drainedSequence + {q})
      else p.(drainedSequence := p.drainedSequence + {q});
    if Get(p.ready, id) > 0 then p.(ready := Less(p.ready, id)) else p.(drainedEarly := More(p.drainedEarly, id))
  }

  function Apply(p: Pool, s: Step): Pool
    requires Enabled(p, s)
  {
    match s
    case Assign(id) =>
      var q := p.next + 1;
      p.(next := q, pending := p.pending[q := false], jobs := p.jobs[q := Job(id, false, false, false, false, false)])
    case Refuse(q) => p.(jobs := p.jobs[q := p.jobs[q].(dead := true)])
    case Drop(q) => p.(jobs := p.jobs[q := p.jobs[q].(dead := true)])
    case Send(q) => p.(channel := p.channel + [q], jobs := p.jobs[q := p.jobs[q].(sent := true)])
    case Book(q) => BookFields(p, q, p.jobs[q].id).(jobs := p.jobs[q := p.jobs[q].(booked := true)])
    case Receive =>
      var q := p.channel[0];
      p.(channel := p.channel[1..], jobs := p.jobs[q := p.jobs[q].(received := true)])
    case BookDrain(q) => BookDrainFields(p, q, p.jobs[q].id).(jobs := p.jobs[q := p.jobs[q].(drained := true)])
  }

  predicate ReadyThrough(p: Pool, frontier: nat) {
    forall q <- p.pending :: q <= frontier ==> p.pending[q]
  }

  // ----- invariant -----

  /** The order of one submission's events; a dead submission never sends. */
  predicate Progress(j: Job) {
    && (j.dead ==> !j.sent)
    && (j.booked || j.received ==> j.sent)
    && (j.drained ==> j.received)
  }

  /** The shared fields record exactly the progress of each submission. */
  ghost predicate Recorded(p: Pool) {
    && p.next <= MAX64
    && (forall q: nat :: q in p.jobs <==> 1 <= q <= p.next)
    && (forall q <- p.jobs :: Progress(p.jobs[q]))
    && (forall q: nat :: q in p.pending <==> q in p.jobs && !p.jobs[q].drained)
    && (forall q <- p.pending :: p.pending[q] == p.jobs[q].booked)
    && (forall q: nat :: q in p.drainedSequence <==> q in p.jobs && p.jobs[q].drained && !p.jobs[q].booked)
  }

  /** The channel holds each sent and not yet received submission exactly once. */
  ghost predicate Queued(p: Pool) {
    && (forall i | 0 <= i < |p.channel| :: p.channel[i] in p.jobs && p.jobs[p.channel[i]].sent && !p.jobs[p.channel[i]].received)
    && (forall i, j | 0 <= i < j < |p.channel| :: p.channel[i] != p.channel[j])
    && (forall q <- p.jobs :: p.jobs[q].sent && !p.jobs[q].received ==> q in p.channel)
  }

  /** How many of the first n submissions are of job id and were recorded by their worker. */
  ghost function Booked(jobs: map<nat, Job>, id: nat, n: nat): nat {
    if n == 0 then 0 else Booked(jobs, id, n - 1) + if n in jobs && jobs[n].id == id && jobs[n].booked then 1 else 0
  }

  ghost function Drained(jobs: map<nat, Job>, id: nat, n: nat): nat {
    if n == 0 then 0 else Drained(jobs, id, n - 1) + if n in jobs && jobs[n].id == id && jobs[n].drained then 1 else 0
  }

  /** The two counters are never both positive, and their difference is recorded minus drained. */
  ghost predicate Counted(p: Pool, id: nat) {
    && (Get(p.ready, id) == 0 || Get(p.drainedEarly, id) == 0)
    && Get(p.ready, id) - Get(p.drainedEarly, id) == Booked(p.jobs, id, p.next) - Drained(p.jobs, id, p.next)
  }

  ghost predicate Inv(p: Pool) {
    Recorded(p) && Queued(p) && forall id: nat :: Counted(p, id)
  }

  // ----- counting -----

  lemma {:induction false} CountsElsewhere(a: map<nat, Job>, b: map<nat, Job>, id: nat, n: nat)
    requires forall q: nat | 1 <= q <= n :: (q in a <==> q in b) && (q in a ==> a[q].id == b[q].id && a[q].booked == b[q].booked && a[q].drained == b[q].drained)
    ensures Booked(a, id, n) == Booked(b, id, n) && Drained(a, id, n) == Drained(b, id, n)
  {
    if n > 0 {
      CountsElsewhere(a, b, id, n - 1);
    }
  }

  lemma {:induction false} CountsAfterPut(jobs: map<nat, Job>, q: nat, j: Job, id: nat, n: nat)
    requires q in jobs && 1 <= q && j.id == jobs[q].id
    ensures Booked(jobs[q := j], id, n) == Booked(jobs, id, n) + if q <= n && j.id == id then Flag(j.booked) - Flag(jobs[q].booked) else 0
    ensures Drained(jobs[q := j], id, n) == Drained(jobs, id, n) + if q <= n && j.id == id then Flag(j.drained) - Flag(jobs[q].drained) else 0
  {
    if n > 0 {
      CountsAfterPut(jobs, q, j, id, n - 1);
    }
  }

  function Flag(b: bool): int {
    if b then 1 else 0
  }

  // ----- steps -----

  lemma AssignKeeps(p: Pool, id: nat)
    requires Inv(p) && p.next < MAX64
    ensures Inv(Apply(p, Assign(id)))
  {
    var p' := Apply(p, Assign(id));
    assert Recorded(p');
    assert Queued(p');
    forall k: nat ensures Counted(p', k) {
      assert Counted(p, k);
      CountsElsewhere(p.jobs, p'.jobs, k, p.next);
    }
  }

  lemma DieKeeps(p: Pool, q: nat)
    requires Inv(p) && Enabled(p, Drop(q))
    ensures Inv(Apply(p, Drop(q)))
  {
    var p' := Apply(p, Drop(q));
    forall k: nat ensures Counted(p', k) {
      assert Counted(p, k);
      CountsAfterPut(p.jobs, q, p'.jobs[q], k, p.next);
    }
  }

  lemma SendKeeps(p: Pool, q: nat)
    requires Inv(p) && Enabled(p, Send(q))
    ensures Inv(Apply(p, Send(q)))
  {
    var p' := Apply(p, Send(q));
    assert q !in p.channel;
    forall k: nat ensures Counted(p', k) {
      assert Counted(p, k);
      CountsAfterPut(p.jobs, q, p'.jobs[q], k, p.next);
    }
  }

  lemma ReceiveKeeps(p: Pool)
    requires Inv(p) && Enabled(p, Receive)
    ensures Inv(Apply(p, Receive))
  {
    var p' := Apply(p, Receive);
    var q := p.channel[0];
    ReceiveRecords(p);
    ReceiveQueues(p);
    forall k: nat ensures Counted(p', k) {
      assert Counted(p, k);
      CountsAfterPut(p.jobs, q, p'.jobs[q], k, p.next);
    }
  }

  lemma ReceiveRecords(p: Pool)
    requires Recorded(p) && Queued(p) && Enabled(p, Receive)
    ensures Recorded(Apply(p, Receive))
  {
    var p' := Apply(p, Receive);
    assert p'.jobs.Keys == p.jobs.Keys;
  }

  lemma ReceiveQueues(p: Pool)
    requires Queued(p) && Enabled(p, Receive)
    ensures Queued(Apply(p, Receive))
  {
    var p' := Apply(p, Receive);
    var q := p.channel[0];
    forall r | r in p'.jobs && p'.jobs[r].sent && !p'.jobs[r].received ensures r in p'.channel {
      assert r in p.channel && r != q;
      var i :| 0 <= i < |p.channel| && p.channel[i] == r;
      assert p'.channel[i - 1] == r;
    }
  }

  /** Recording touches neither the channel nor who was sent and received. */
  lemma SameQueue(p: Pool, p': Pool)
    requires Queued(p) && p'.channel == p.channel && p'.jobs.Keys == p.jobs.Keys
    requires forall r <- p.jobs :: p'.jobs[r].sent == p.jobs[r].sent && p'.jobs[r].received == p.jobs[r].received
    ensures Queued(p')
  {}

  /** The per-submission part of Recorded, which one recording changes at one submission only. */
  ghost predicate RecordedAt(p: Pool, r: nat) {
    && (r in p.pending <==> r in p.jobs && !p.jobs[r].drained)
    && (r in p.pending ==> p.pending[r] == p.jobs[r].booked)
    && (r in p.drainedSequence <==> r in p.jobs && p.jobs[r].drained && !p.jobs[r].booked)
  }

  lemma BookRecordsAt(p: Pool, q: nat, r: nat)
    requires Enabled(p, Book(q)) && Progress(p.jobs[q]) && RecordedAt(p, q) && RecordedAt(p, r)
    ensures RecordedAt(Apply(p, Book(q)), r)
  {}

  lemma RecordedFromAt(p: Pool)
    requires p.next <= MAX64 && (forall q: nat :: q in p.jobs <==> 1 <= q <= p.next)
    requires (forall q <- p.jobs :: Progress(p.jobs[q])) && forall r: nat :: RecordedAt(p, r)
    ensures Recorded(p)
  {
    forall q: nat ensures q in p.pending <==> q in p.jobs && !p.jobs[q].drained { assert RecordedAt(p, q); }
    forall q | q in p.pending ensures p.pending[q] == p.jobs[q].booked { assert RecordedAt(p, q); }
    forall q: nat ensures q in p.drainedSequence <==> q in p.jobs && p.jobs[q].drained && !p.jobs[q].booked { assert RecordedAt(p, q); }
  }

  lemma BookRecords(p: Pool, q: nat)
    requires Recorded(p) && Queued(p) && Enabled(p, Book(q))
    ensures Recorded(Apply(p, Book(q))) && Queued(Apply(p, Book(q)))
  {
    var p' := Apply(p, Book(q));
    forall r: nat ensures RecordedAt(p', r) { BookRecordsAt(p, q, r); }
    RecordedFromAt(p');
    SameQueue(p, p');
  }

  lemma BookCounts(p: Pool, q: nat, k: nat)
    requires Recorded(p) && Enabled(p, Book(q)) && Counted(p, k)
    ensures Counted(Apply(p, Book(q)), k)
  {
    CountsAfterPut(p.jobs, q, p.jobs[q].(booked := true), k, p.next);
  }

  lemma BookKeeps(p: Pool, q: nat)
    requires Inv(p) && Enabled(p, Book(q))
    ensures Inv(Apply(p, Book(q)))
  {
    BookRecords(p, q);
    forall k: nat ensures Counted(Apply(p, Book(q)), k) {
      BookCounts(p, q, k);
    }
  }

  lemma BookDrainRecords(p: Pool, q: nat)
    requires Recorded(p) && Queued(p) && Enabled(p, BookDrain(q))
    ensures Recorded(Apply(p, BookDrain(q))) && Queued(Apply(p, BookDrain(q)))
  {
    var p' := Apply(p, BookDrain(q));
    forall r: nat ensures RecordedAt(p', r) { BookDrainRecordsAt(p, q, r); }
    RecordedFromAt(p');
    SameQueue(p, p');
  }

  lemma BookDrainRecordsAt(p: Pool, q: nat, r: nat)
    requires Enabled(p, BookDrain(q)) && Progress(p.jobs[q]) && RecordedAt(p, q) && RecordedAt(p, r)
    ensures RecordedAt(Apply(p, BookDrain(q)), r)
  {}

  lemma BookDrainCounts(p: Pool, q: nat, k: nat)
    requires Recorded(p) && Enabled(p, BookDrain(q)) && Counted(p, k)
    ensures Counted(Apply(p, BookDrain(q)), k)
  {
    CountsAfterPut(p.jobs, q, p.jobs[q].(drained := true), k, p.next);
  }

  lemma BookDrainKeeps(p: Pool, q: nat)
    requires Inv(p) && Enabled(p, BookDrain(q))
    ensures Inv(Apply(p, BookDrain(q)))
  {
    BookDrainRecords(p, q);
    forall k: nat ensures Counted(Apply(p, BookDrain(q)), k) {
      BookDrainCounts(p, q, k);
    }
  }

  lemma StepKeeps(p: Pool, s: Step)
    requires Inv(p) && Enabled(p, s)
    ensures Inv(Apply(p, s))
  {
    match s
    case Assign(id) => AssignKeeps(p, id);
    case Refuse(q) => DieKeeps(p, q);
    case Drop(q) => DieKeeps(p, q);
    case Send(q) => SendKeeps(p, q);
    case Book(q) => BookKeeps(p, q);
    case Receive => ReceiveKeeps(p);
    case BookDrain(q) => BookDrainKeeps(p, q);
  }

  // ----- runs: every interleaving -----

  ghost predicate Possible(p: Pool, steps: seq<Step>)
    decreases |steps|
  {
    steps == [] || (Enabled(p, steps[0]) && Possible(Apply(p, steps[0]), steps[1..]))
  }

  ghost function Run(p: Pool, steps: seq<Step>): Pool
    requires Possible(p, steps)
    decreases |steps|
  {
    if steps == [] then p else Run(Apply(p, steps[0]), steps[1..])
  }

  lemma {:induction false} RunKeeps(p: Pool, steps: seq<Step>)
    requires Inv(p) && Possible(p, steps)
    ensures Inv(Run(p, steps))
    decreases |steps|
  {
    if steps != [] {
      StepKeeps(p, steps[0]);
      RunKeeps(Apply(p, steps[0]), steps[1..]);
    }
  }

  /**
   * Under every interleaving ReadyThrough(f) is true exactly when every submission assigned up to f
   * has been recorded by its worker or by the drainer; in particular its result was already sent.
   */
  lemma ReadyThroughMeansPublished(steps: seq<Step>, f: nat)
    requires Possible(EMPTY, steps)
    ensures
      var p := Run(EMPTY, steps);
      && (ReadyThrough(p, f) <==> forall q | 1 <= q <= p.next && q <= f :: q in p.jobs && (p.jobs[q].booked || p.jobs[q].drained))
      && (ReadyThrough(p, f) ==> forall q | 1 <= q <= p.next && q <= f :: q in p.jobs && p.jobs[q].sent && !p.jobs[q].dead)
  {
    RunKeeps(EMPTY, steps);
    var p := Run(EMPTY, steps);
    if ReadyThrough(p, f) {
      forall q | 1 <= q <= p.next && q <= f ensures q in p.jobs && (p.jobs[q].booked || p.jobs[q].drained) {
        assert q in p.jobs;
        assert !p.jobs[q].drained ==> q in p.pending;
      }
    }
  }

  /** Under every interleaving the two counters of a job are exclusive and differ by recorded minus drained results. */
  lemma CountersAgree(steps: seq<Step>, id: nat)
    requires Possible(EMPTY, steps)
    ensures
      var p := Run(EMPTY, steps);
      && (Get(p.ready, id) == 0 || Get(p.drainedEarly, id) == 0)
      && Get(p.ready, id) - Get(p.drainedEarly, id) == Booked(p.jobs, id, p.next) - Drained(p.jobs, id, p.next)
  {
    RunKeeps(EMPTY, steps);
    assert Counted(Run(EMPTY, steps), id);
  }

  // ----- the frozen frontier -----

  lemma StepKeepsFrontier(p: Pool, s: Step, f: nat)
    requires Inv(p) && Enabled(p, s) && f <= p.next && ReadyThrough(p, f)
    ensures f <= Apply(p, s).next && ReadyThrough(Apply(p, s), f)
    ensures forall q <- Apply(p, s).channel :: q <= f ==> q in p.channel
  {
    if s.Send? {
      assert s.sequence in p.jobs && !p.jobs[s.sequence].booked && !p.jobs[s.sequence].drained;
      assert s.sequence in p.pending;
    }
  }

  /**
   * Once a frozen frontier f is ready it stays ready, and no result at or below f ever enters the
   * channel again: every one still to be drained is already there.
   */
  lemma {:induction false} FrontierIsClosed(p: Pool, steps: seq<Step>, f: nat)
    requires Inv(p) && Possible(p, steps) && f <= p.next && ReadyThrough(p, f)
    ensures ReadyThrough(Run(p, steps), f)
    ensures forall q <- Run(p, steps).channel :: q <= f ==> q in p.channel
    decreases |steps|
  {
    if steps != [] {
      StepKeeps(p, steps[0]);
      StepKeepsFrontier(p, steps[0], f);
      FrontierIsClosed(Apply(p, steps[0]), steps[1..], f);
    }
  }

  /** A refused submission or a dropped result blocks every frontier that covers it, for ever. */
  lemma {:induction false} DeadBlocksFrontier(p: Pool, steps: seq<Step>, q: nat, f: nat)
    requires Inv(p) && Possible(p, steps) && q in p.jobs && p.jobs[q].dead && q <= f
    ensures q in Run(p, steps).jobs && Run(p, steps).jobs[q].dead && !ReadyThrough(Run(p, steps), f)
    decreases |steps|
  {
    if steps == [] {
      assert q in p.pending && !p.pending[q];
    } else {
      StepKeeps(p, steps[0]);
      DeadBlocksFrontier(Apply(p, steps[0]), steps[1..], q, f);
    }
  }
}
