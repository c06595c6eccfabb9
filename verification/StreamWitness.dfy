/** A concrete state of the log in which the credit window does not bound one drain. */
module StreamWitness {
  import opened Machine
  import opened StreamModel
  import opened StreamRuns

  function Rec(cursor: nat, cls: EventClass): CutRecord {
    CutRecord(cursor, "c", "f", [Event(0, cls, "", "")])
  }

  /** Two records the filter ignores, then two it selects. */
  function Log(): seq<CutRecord> {
    [Rec(1, FrameReady), Rec(2, FrameReady), Rec(3, TreeChanged), Rec(4, TreeChanged)]
  }

  function Narrow(): Filter {
    Filter([TreeChanged], [])
  }

  const LIMITS := Retention(16, 4096, 1024, 100)

  /** The world after n of the four appends, with the given streams. */
  function At(n: nat, nextID: nat, streams: map<nat, Stream>, tapes: map<nat, Tape>): World
    requires n <= 4
  {
    World(Hub(LIMITS, seq(n, i requires 0 <= i < n => LogRecord(Log()[i], 0)), 112 * n, n, nextID, streams), Log()[..n], tapes)
  }

  function Watcher(sent: nat): Stream {
    Stream("s", 1, Narrow(), 1, Live, NoReason, sent, 0, None)
  }

  /** A stream with credit 1 that drained past the two ignored records and acknowledged nothing. */
  function Overrun(): World {
    At(4, 1, map[1 := Watcher(2)], map[1 := Tape(Narrow(), 0, 2, 0, [])])
  }

  lemma OwedPair(f: Filter, log: seq<CutRecord>, lo: nat)
    requires lo + 2 <= |log|
    ensures |Owed(f, log, lo, lo + 2)| == (if Selects(f, log[lo]) then 1 else 0) + (if Selects(f, log[lo + 1]) then 1 else 0)
  {
    assert |Owed(f, log, lo + 1, lo + 2)| == if Selects(f, log[lo + 1]) then 1 else 0;
  }

  /** The state is consistent, the credit is 1, and one drain hands out two records. */
  lemma WindowOverrun()
    ensures Inv(Overrun()) && Bounded(Overrun().hub) && Overrun().hub.streams[1].credit == 1
    ensures |DrainStep(Overrun().hub, 1, "s", 1, 0).1.recs| > 1
  {
    OverrunIsReached();
    OwedPair(Narrow(), Log(), 2);
    DrainsTwo(Overrun());
  }

  lemma DrainsTwo(w: World)
    requires Inv(w) && 1 in w.hub.streams && w.hub.streams[1] == Watcher(2) && Floor(w.hub) == 1 && |w.log| == 4
    requires |Owed(Narrow(), w.log, 2, 4)| == 2
    ensures Bounded(w.hub) && |DrainStep(w.hub, 1, "s", 1, 0).1.recs| > 1
  {
    DrainWithinWindowIff(w, 1, 0);
  }

  // ----- the state is reached from an empty hub -----

  lemma AppendNext(n: nat, nextID: nat, streams: map<nat, Stream>, tapes: map<nat, Tape>)
    requires n < 4 && Bounded(At(n, nextID, streams, tapes).hub) && forall id <- streams :: streams[id].sent < MAX64
    ensures AppendTo(At(n, nextID, streams, tapes), Log()[n], 0) == At(n + 1, nextID, streams, tapes)
  {
    var h, rec := At(n, nextID, streams, tapes).hub, Log()[n];
    assert EventsSize(rec.events) == 48 && Sealed(rec, n + 1) == rec;
    var more := h.records + [LogRecord(rec, 0)];
    assert more == At(n + 1, nextID, streams, tapes).hub.records;
    assert Evict(more, h.bytes + 112, LIMITS, 0) == (more, h.bytes + 112);
    assert ExpireAll(streams, 1, 0) == streams;
    assert Log()[..n] + [rec] == Log()[..n + 1];
  }

  const FIRST := WatchSpec("s", 1, Narrow(), 0, 1)

  lemma WatchAndDrain()
    ensures WatchIn(At(2, 0, map[], map[]), FIRST) == At(2, 1, map[1 := Watcher(0)], map[1 := Tape(Narrow(), 0, 0, 0, [])])
    ensures DrainFrom(At(2, 1, map[1 := Watcher(0)], map[1 := Tape(Narrow(), 0, 0, 0, [])]), 1, "s", 1, 0) == At(2, 1, map[1 := Watcher(2)], map[1 := Tape(Narrow(), 0, 2, 0, [])])
  {
    var h := At(2, 1, map[1 := Watcher(0)], map[1 := Tape(Narrow(), 0, 0, 0, [])]).hub;
    assert !Selects(Narrow(), Log()[0]) && !Selects(Narrow(), Log()[1]);
    assert Deliver(h.records, 1, Narrow(), 1, 1) == (2, []);
  }

  lemma RunStep(w: World, op: Op, rest: seq<Op>)
    requires Inv(w) && WellTyped(op) && Runnable(w, [op] + rest)
    ensures Inv(Apply(w, op)) && Runnable(Apply(w, op), rest) && Run(w, [op] + rest) == Run(Apply(w, op), rest)
  {
    ApplyKeepsInv(w, op);
    ApplyCounts(w, op);
    assert ([op] + rest)[0] == op && ([op] + rest)[1..] == rest;
    assert forall i | 0 <= i < |rest| :: ([op] + rest)[i + 1] == rest[i];
  }

  /** Append two ignored records, watch from 0 with credit 1, drain, append two matching records. */
  function Script(): seq<Op> {
    [Append(Log()[0], 0)] + ([Append(Log()[1], 0)] + ([Watch(FIRST)] + Ending()))
  }

  /** The second half of the script: the drain and the two matching records. */
  function Ending(): seq<Op> {
    [Drain(1, "s", 1, 0)] + ([Append(Log()[2], 0)] + ([Append(Log()[3], 0)] + []))
  }

  const BEGUN: map<nat, Tape> := map[1 := Tape(Narrow(), 0, 0, 0, [])]
  const DRAINED: map<nat, Tape> := map[1 := Tape(Narrow(), 0, 2, 0, [])]

  /** The first half leads to a stream at position 0 behind two ignored records. */
  lemma WatchIsReached()
    ensures Inv(Init(LIMITS)) && Runnable(Init(LIMITS), Script()) && Inv(At(2, 1, map[1 := Watcher(0)], BEGUN))
    ensures Runnable(At(2, 1, map[1 := Watcher(0)], BEGUN), Ending())
    ensures Run(Init(LIMITS), Script()) == Run(At(2, 1, map[1 := Watcher(0)], BEGUN), Ending())
  {
    InitInv(LIMITS);
    assert Init(LIMITS) == At(0, 0, map[], map[]);
    var three := [Watch(FIRST)] + Ending();
    AppendNext(0, 0, map[], map[]);
    RunStep(At(0, 0, map[], map[]), Append(Log()[0], 0), [Append(Log()[1], 0)] + three);
    AppendNext(1, 0, map[], map[]);
    RunStep(At(1, 0, map[], map[]), Append(Log()[1], 0), three);
    WatchAndDrain();
    RunStep(At(2, 0, map[], map[]), Watch(FIRST), Ending());
  }

  lemma EndingRuns()
    requires Inv(At(2, 1, map[1 := Watcher(0)], BEGUN)) && Runnable(At(2, 1, map[1 := Watcher(0)], BEGUN), Ending())
    ensures Run(At(2, 1, map[1 := Watcher(0)], BEGUN), Ending()) == Overrun()
  {
    WatchAndDrain();
    RunStep(At(2, 1, map[1 := Watcher(0)], BEGUN), Drain(1, "s", 1, 0), [Append(Log()[2], 0)] + ([Append(Log()[3], 0)] + []));
    AppendNext(2, 1, map[1 := Watcher(2)], DRAINED);
    RunStep(At(2, 1, map[1 := Watcher(2)], DRAINED), Append(Log()[2], 0), [Append(Log()[3], 0)] + []);
    AppendNext(3, 1, map[1 := Watcher(2)], DRAINED);
    RunStep(At(3, 1, map[1 := Watcher(2)], DRAINED), Append(Log()[3], 0), []);
  }

  lemma OverrunIsReached()
    ensures Inv(Init(LIMITS)) && Runnable(Init(LIMITS), Script()) && Run(Init(LIMITS), Script()) == Overrun() && Inv(Overrun())
  {
    WatchIsReached();
    EndingRuns();
  }
}
