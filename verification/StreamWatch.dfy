/**
 * Where a new stream starts (drive/stream.go). The documentation promises that position 0 means "from the next record"
 * and that a watch whose next record was evicted is refused. The code starts every stream after the position it was
 * given, and position 0 is exempt from the refusal.
 */
module StreamWatch {
  import opened Machine
  import opened StreamModel
  import opened StreamRuns
  import opened StreamWitness

  /**
   * An accepted stream has already lost its next record exactly when it was asked for from position 0 and something was
   * evicted; it starts with the next record to be appended exactly when it was asked for from the head.
   */
  lemma WatchStarts(w: World, spec: WatchSpec)
    requires Inv(w) && spec.after <= MAX64
    ensures Bounded(w.hub)
    ensures
      var reply := WatchStep(w.hub, spec).1;
      reply.Watching? ==>
        var w' := WatchIn(w, spec);
        && reply.id in w'.tapes
        && (Dead(w', reply.id) <==> spec.after == 0 && Floor(w.hub) > 1)
        && (w'.tapes[reply.id].start == |w.log| <==> spec.after == w.hub.head)
        && (!Dead(w', reply.id) ==> |w.log| - |w.hub.records| <= spec.after)
  {
    InvBounded(w);
    FloorOf(w);
  }

  /** Position 0 keeps its documented meaning exactly while the log is empty. */
  lemma ZeroIsNextRecordIff(w: World, spec: WatchSpec)
    requires Inv(w) && spec.after == 0
    ensures Bounded(w.hub)
    ensures
      var reply := WatchStep(w.hub, spec).1;
      reply.Watching? ==> reply.id in WatchIn(w, spec).tapes && (WatchIn(w, spec).tapes[reply.id].start == |w.log| <==> w.log == [])
  {
    WatchStarts(w, spec);
  }

  /** Such a stream is reported expired by its first drain, without a record. */
  lemma DeadAtStartExpires(w: World, spec: WatchSpec, now: int)
    requires Inv(w) && w.hub.head < MAX64 && spec.after == 0 && Floor(w.hub) > 1
    ensures Bounded(w.hub)
    ensures
      var (h, reply) := WatchStep(w.hub, spec);
      reply.Watching? ==> Bounded(h) && DrainStep(h, reply.id, spec.session, spec.connection, now).1 == DrainReply([], Known(Expired, RetentionExhausted))
  {
    InvBounded(w);
  }

  // ----- a run that does it -----

  const SMALL := Retention(1, 4096, 1024, 100)

  /** One record is retained of two appended. */
  function Trimmed(): World {
    World(Hub(SMALL, [LogRecord(Log()[1], 0)], 112, 2, 0, map[]), Log()[..2], map[])
  }

  lemma TrimmedIsReached()
    ensures Inv(Init(SMALL)) && Runnable(Init(SMALL), [Append(Log()[0], 0)] + ([Append(Log()[1], 0)] + []))
    ensures Run(Init(SMALL), [Append(Log()[0], 0)] + ([Append(Log()[1], 0)] + [])) == Trimmed()
  {
    InitInv(SMALL);
    FirstAppend();
    SecondAppend();
    RunStep(Init(SMALL), Append(Log()[0], 0), [Append(Log()[1], 0)] + []);
    RunStep(OneRecord(), Append(Log()[1], 0), []);
  }

  function OneRecord(): World {
    World(Hub(SMALL, [LogRecord(Log()[0], 0)], 112, 1, 0, map[]), Log()[..1], map[])
  }

  lemma FirstAppend()
    ensures AppendTo(Init(SMALL), Log()[0], 0) == OneRecord()
  {
    var rec := Log()[0];
    assert EventsSize(rec.events) == 48 && Sealed(rec, 1) == rec;
    assert [] + [LogRecord(rec, 0)] == [LogRecord(rec, 0)] && [] + [rec] == Log()[..1];
  }

  lemma SecondAppend()
    ensures AppendTo(OneRecord(), Log()[1], 0) == Trimmed()
  {
    var rec := Log()[1];
    assert EventsSize(rec.events) == 48 && EventsSize(Log()[0].events) == 48 && Sealed(rec, 2) == rec;
    var both := [LogRecord(Log()[0], 0)] + [LogRecord(rec, 0)];
    assert both[1..] == [LogRecord(rec, 0)];
    assert Evict(both[1..], 112, SMALL, 0) == (both[1..], 112);
    assert Log()[..1] + [rec] == Log()[..2];
  }

  /** After two appends into a log of one record, a watch from 0 is accepted and its first drain reports expiry. */
  lemma WatchFromZeroExpires()
    ensures Inv(Trimmed()) && Bounded(Trimmed().hub) && WatchStep(Trimmed().hub, FIRST).1 == Watching(1)
    ensures Dead(WatchIn(Trimmed(), FIRST), 1)
    ensures Bounded(WatchStep(Trimmed().hub, FIRST).0)
    ensures DrainStep(WatchStep(Trimmed().hub, FIRST).0, 1, "s", 1, 0).1 == DrainReply([], Known(Expired, RetentionExhausted))
  {
    TrimmedIsReached();
    WatchStarts(Trimmed(), FIRST);
    DeadAtStartExpires(Trimmed(), FIRST, 0);
  }
}
