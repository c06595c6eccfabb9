/**
 * Whole-run guarantees of the event log: for every sequence of operations, what a
 * stream was handed is exactly what its filter selects from the full append history.
 */
module StreamRuns {
  import opened Machine
  import opened StreamModel

  /**
   * Ghost record of one stream ever created; it outlives the stream object. `acked` is the position carried by the
   * last accepted acknowledgement itself, initially the start.
   */
  datatype Tape = Tape(filter: Filter, start: nat, sent: nat, acked: nat, delivered: seq<CutRecord>)

  /** The hub plus everything it may already have forgotten. */
  datatype World = World(hub: Hub, log: seq<CutRecord>, tapes: map<nat, Tape>)

  datatype Op =
    | Append(rec: CutRecord, now: int)
    | Watch(spec: WatchSpec)
    | Ack(id: nat, session: string, conn: nat, position: nat)
    | Drain(id: nat, session: string, conn: nat, now: int)
    | Cancel(id: nat, now: int)
    | CloseConnection(conn: nat, now: int)
    | CloseSession(session: string, now: int)
    | Sweep(now: int)

  predicate WellTyped(op: Op) {
    (op.Watch? ==> op.spec.after <= MAX64) && (op.Ack? ==> op.position <= MAX64)
  }

  function Init(r: Retention): World {
    World(Hub(r, [], 0, 0, 0, map[]), [], map[])
  }

  function AppendTo(w: World, rec: CutRecord, now: int): World
    requires Bounded(w.hub)
  {
    var (h, ok) := AppendStep(w.hub, rec, now);
    if ok then World(h, w.log + [Sealed(rec, h.head)], w.tapes) else w
  }

  function WatchIn(w: World, spec: WatchSpec): World
    requires Bounded(w.hub) && spec.after <= MAX64
  {
    var (h, reply) := WatchStep(w.hub, spec);
    if reply.Watching? then w.(hub := h, tapes := w.tapes[reply.id := Tape(spec.filter, spec.after, spec.after, spec.after, [])]) else w
  }

  /** An acknowledgement by the owner of a live stream of a position between the last one and what was sent. */
  predicate Acknowledges(w: World, id: nat, session: string, conn: nat, position: nat) {
    && id in w.hub.streams && w.hub.streams[id].session == session && w.hub.streams[id].connection == conn
    && w.hub.streams[id].state == Live && id in w.tapes && w.tapes[id].acked <= position <= w.tapes[id].sent
  }

  function AckIn(w: World, id: nat, session: string, conn: nat, position: nat): World
    requires Bounded(w.hub) && position <= MAX64
  {
    var h := AckStep(w.hub, id, session, conn, position).0;
    if Acknowledges(w, id, session, conn, position) then w.(hub := h, tapes := w.tapes[id := w.tapes[id].(acked := position)])
    else w.(hub := h)
  }

  function DrainFrom(w: World, id: nat, session: string, conn: nat, now: int): World
    requires Bounded(w.hub)
  {
    var (h, reply) := DrainStep(w.hub, id, session, conn, now);
    if Owns(w.hub, id, session, conn) && id in w.tapes
    then w.(hub := h, tapes := w.tapes[id := w.tapes[id].(sent := h.streams[id].sent, delivered := w.tapes[id].delivered + reply.recs)])
    else w.(hub := h)
  }

  function Apply(w: World, op: Op): World
    requires Bounded(w.hub) && WellTyped(op)
  {
    match op
    case Append(rec, now) => AppendTo(w, rec, now)
    case Watch(spec) => WatchIn(w, spec)
    case Ack(id, session, conn, position) => AckIn(w, id, session, conn, position)
    case Drain(id, session, conn, now) => DrainFrom(w, id, session, conn, now)
    case Cancel(id, now) => w.(hub := CancelStep(w.hub, id, now).0)
    case CloseConnection(conn, now) => w.(hub := CloseConnectionStep(w.hub, conn, now))
    case CloseSession(session, now) => w.(hub := CloseSessionStep(w.hub, session, now))
    case Sweep(now) => w.(hub := SweepStep(w.hub, now))
  }

  // ----- invariants -----

  /** Retained records are the contiguous tail of the history, exactly accounted and within both bounds. */
  ghost predicate LogOk(r: Retention, records: seq<LogRecord>, bytes: int, log: seq<CutRecord>) {
    && ValidRetention(r)
    && |log| <= MAX64
    && (forall i | 0 <= i < |log| :: log[i].cursor == i + 1)
    && Tail(records, log)
    && bytes == TotalSize(records)
    && |records| <= r.maxRecords && bytes <= r.maxBytes
    && (log != [] ==> records != [])
  }

  ghost predicate Tail(records: seq<LogRecord>, log: seq<CutRecord>) {
    && |records| <= |log|
    && forall i | 0 <= i < |records| :: records[i].rec == log[|log| - |records| + i]
  }

  ghost predicate MatchesEvery(f: Filter, log: seq<CutRecord>) {
    forall i | 0 <= i < |log| :: Selects(f, log[i])
  }

  /** A stream agrees with its tape; a live stream below the floor has never moved off position 0. */
  ghost predicate StreamOk(s: Stream, t: Tape, head: nat, floor: nat) {
    && t.sent == s.sent && t.acked == s.acked && t.filter == s.filter
    && 1 <= s.credit <= 8
    && s.acked <= s.sent <= head <= MAX64
    && (s.state == Live && s.sent + 1 < floor ==> s.sent == 0)
  }

  /** No gap, no duplicate, no reordering: the deliveries are the owed records over (start, sent]. */
  ghost predicate TapeOk(t: Tape, log: seq<CutRecord>) {
    t.start <= t.acked <= t.sent <= |log| && t.delivered == Owed(t.filter, log, t.start, t.sent)
  }

  ghost predicate StreamsOk(streams: map<nat, Stream>, tapes: map<nat, Tape>, head: nat, floor: nat) {
    && |streams| <= MAX_STREAMS
    && forall id <- streams :: id in tapes && StreamOk(streams[id], tapes[id], head, floor)
  }

  ghost predicate TapesOk(tapes: map<nat, Tape>, nextID: nat, log: seq<CutRecord>) {
    && nextID <= MAX64
    && forall id <- tapes :: 1 <= id <= nextID && TapeOk(tapes[id], log)
  }

  ghost predicate Inv(w: World) {
    && w.hub.head == |w.log|
    && LogOk(w.hub.retention, w.hub.records, w.hub.bytes, w.log)
    && StreamsOk(w.hub.streams, w.tapes, w.hub.head, Floor(w.hub))
    && TapesOk(w.tapes, w.hub.nextID, w.log)
  }

  lemma InvBounded(w: World)
    requires Inv(w)
    ensures Bounded(w.hub)
  {}

  // ----- list facts -----

  lemma {:induction false} OwedConcat(f: Filter, log: seq<CutRecord>, lo: nat, mid: nat, hi: nat)
    requires lo <= mid <= hi <= |log|
    ensures Owed(f, log, lo, hi) == Owed(f, log, lo, mid) + Owed(f, log, mid, hi)
    decreases mid - lo
  {
    if lo < mid {
      OwedConcat(f, log, lo + 1, mid, hi);
    } else {
      assert [] + Owed(f, log, mid, hi) == Owed(f, log, mid, hi);
    }
  }

  lemma {:induction false} OwedExtend(f: Filter, log: seq<CutRecord>, rec: CutRecord, lo: nat, hi: nat)
    requires lo <= hi <= |log|
    ensures Owed(f, log + [rec], lo, hi) == Owed(f, log, lo, hi)
    decreases hi - lo
  {
    if lo < hi {
      OwedExtend(f, log, rec, lo + 1, hi);
    }
  }

  lemma {:induction false} OwedLength(f: Filter, log: seq<CutRecord>, lo: nat, hi: nat)
    requires lo <= hi <= |log|
    ensures |Owed(f, log, lo, hi)| <= hi - lo
    ensures MatchesEvery(f, log) ==> |Owed(f, log, lo, hi)| == hi - lo
    decreases hi - lo
  {
    if lo < hi {
      OwedLength(f, log, lo + 1, hi);
    }
  }

  lemma {:induction false} TotalSizeSnoc(a: seq<LogRecord>, x: LogRecord)
    ensures TotalSize(a + [x]) == TotalSize(a) + Size(x.rec)
  {
    if a == [] {
      assert a + [x] == [x];
    } else {
      assert (a + [x])[0] == a[0] && (a + [x])[1..] == a[1..] + [x];
      TotalSizeSnoc(a[1..], x);
    }
  }

  // ----- eviction -----

  /** Eviction drops a prefix, keeps the byte count exact, meets both bounds and never drops the newest, admissible record. */
  lemma {:induction false} EvictKeepsLast(records: seq<LogRecord>, bytes: int, r: Retention, now: int)
    requires ValidRetention(r) && records != [] && bytes == TotalSize(records)
    requires records[|records| - 1].at == now && Size(records[|records| - 1].rec) <= r.maxRecordBytes
    ensures
      var (kept, left) := Evict(records, bytes, r, now);
      && kept != [] && |kept| <= |records| && kept == records[|records| - |kept|..]
      && left == TotalSize(kept) && |kept| <= r.maxRecords && left <= r.maxBytes
    decreases |records|
  {
    if Evictable(records, bytes, r, now) {
      LastIsNotEvictable(records, bytes, r, now);
      var rest := records[1..];
      EvictKeepsLast(rest, bytes - Size(records[0].rec), r, now);
      var kept := Evict(records, bytes, r, now).0;
      assert rest[|rest| - |kept|..] == records[|records| - |kept|..];
    }
  }

  /** The record just appended is within every bound on its own. */
  lemma LastIsNotEvictable(records: seq<LogRecord>, bytes: int, r: Retention, now: int)
    requires ValidRetention(r) && records != [] && bytes == TotalSize(records) && Evictable(records, bytes, r, now)
    requires records[|records| - 1].at == now && Size(records[|records| - 1].rec) <= r.maxRecordBytes
    ensures |records| > 1 && bytes - Size(records[0].rec) == TotalSize(records[1..])
  {
    assert |records| == 1 ==> TotalSize(records) == Size(records[0].rec) + TotalSize(records[1..]);
  }

  // ----- delivery -----

  /** Deliver hands out the first `credit` owed records after `sent` and stops on the last one handed out, or at the head. */
  lemma {:induction false} DeliverIsOwed(records: seq<LogRecord>, i: nat, log: seq<CutRecord>, f: Filter, sent: nat, credit: nat)
    requires forall i | 0 <= i < |log| :: log[i].cursor == i + 1
    requires Tail(records, log) && i <= |records| && |log| - |records| + i <= sent <= |log|
    ensures
      var r := Deliver(records, i, f, sent, credit);
      && sent <= r.0 <= |log|
      && r.1 == Owed(f, log, sent, r.0)
      && |r.1| == Min(credit, |Owed(f, log, sent, |log|)|)
      && (|r.1| < credit ==> r.0 == |log|)
    decreases |records| - i
  {
    if i < |records| {
      assert records[i].rec == log[|log| - |records| + i];
      if records[i].rec.cursor <= sent {
        DeliverIsOwed(records, i + 1, log, f, sent, credit);
      } else if credit > 0 {
        DeliverIsOwed(records, i + 1, log, f, sent + 1, if Selects(f, log[sent]) then credit - 1 else credit);
      }
    }
  }

  // ----- each step keeps the invariant -----

  lemma {:induction false} EventsSizeExt(a: seq<Event>, b: seq<Event>)
    requires |a| == |b|
    requires forall i | 0 <= i < |a| :: a[i].name == b[i].name && a[i].payload == b[i].payload
    ensures EventsSize(a) == EventsSize(b)
  {
    if a != [] {
      EventsSizeExt(a[1..], b[1..]);
    }
  }

  lemma TailSnoc(records: seq<LogRecord>, log: seq<CutRecord>, last: LogRecord, keep: nat)
    requires Tail(records, log) && keep <= |records| + 1
    ensures Tail((records + [last])[|records| + 1 - keep..], log + [last.rec])
  {}

  lemma SealedSize(rec: CutRecord, cursor: nat)
    ensures Size(Sealed(rec, cursor)) == Size(rec)
  {
    EventsSizeExt(Sealed(rec, cursor).events, rec.events);
  }

  lemma LogAppend(r: Retention, records: seq<LogRecord>, bytes: int, log: seq<CutRecord>, last: LogRecord)
    requires LogOk(r, records, bytes, log) && |log| < MAX64
    requires last.rec.cursor == |log| + 1 && Size(last.rec) <= r.maxRecordBytes
    ensures
      var p := Evict(records + [last], bytes + Size(last.rec), r, last.at);
      LogOk(r, p.0, p.1, log + [last.rec]) && p.0[|p.0| - 1] == last
  {
    TotalSizeSnoc(records, last);
    EvictedLogOk(r, records, log, last, records + [last], bytes + Size(last.rec));
  }

  lemma EvictedLogOk(r: Retention, records: seq<LogRecord>, log: seq<CutRecord>, last: LogRecord, all: seq<LogRecord>, total: int)
    requires ValidRetention(r) && Tail(records, log) && |log| < MAX64 && last.rec.cursor == |log| + 1
    requires forall i | 0 <= i < |log| :: log[i].cursor == i + 1
    requires all == records + [last] && total == TotalSize(all) && Size(last.rec) <= r.maxRecordBytes
    ensures
      var p := Evict(all, total, r, last.at);
      LogOk(r, p.0, p.1, log + [last.rec]) && p.0[|p.0| - 1] == last
  {
    EvictKeepsLast(all, total, r, last.at);
    TailSnoc(records, log, last, |Evict(all, total, r, last.at).0|);
  }

  lemma StreamsAppend(streams: map<nat, Stream>, tapes: map<nat, Tape>, head: nat, floor: nat, floor': nat, now: int)
    requires StreamsOk(streams, tapes, head, floor) && head < MAX64
    ensures
      var streams' := ExpireAll(streams, floor', now);
      && StreamsOk(streams', tapes, head + 1, floor')
      && forall id <- streams' :: streams'[id].state == Live ==> streams'[id].sent + 1 >= floor'
  {
    var streams' := ExpireAll(streams, floor', now);
    assert streams'.Keys == streams.Keys;
    forall id | id in streams'
      ensures StreamOk(streams'[id], tapes[id], head + 1, floor')
      ensures streams'[id].state == Live ==> streams'[id].sent + 1 >= floor'
    {
      assert StreamOk(streams[id], tapes[id], head, floor);
    }
  }

  lemma TapesAppend(tapes: map<nat, Tape>, nextID: nat, log: seq<CutRecord>, rec: CutRecord)
    requires TapesOk(tapes, nextID, log)
    ensures TapesOk(tapes, nextID, log + [rec])
  {
    forall id | id in tapes ensures TapeOk(tapes[id], log + [rec]) {
      OwedExtend(tapes[id].filter, log, rec, tapes[id].start, tapes[id].sent);
    }
  }

  /** An append keeps the invariant, keeps the record just appended, and leaves no live stream below the floor. */
  lemma AppendKeepsInv(w: World, rec: CutRecord, now: int)
    requires Inv(w) && w.hub.head < MAX64
    ensures Bounded(w.hub) && Inv(AppendTo(w, rec, now))
    ensures
      var h' := AppendTo(w, rec, now).hub;
      Size(rec) <= w.hub.retention.maxRecordBytes ==>
        && h'.records != [] && h'.records[|h'.records| - 1].rec == Sealed(rec, w.hub.head + 1)
        && forall id <- h'.streams :: h'.streams[id].state == Live ==> h'.streams[id].sent + 1 >= Floor(h')
  {
    InvBounded(w);
    if Size(rec) <= w.hub.retention.maxRecordBytes {
      var stored := Sealed(rec, |w.log| + 1);
      SealedSize(rec, |w.log| + 1);
      AppendStepIs(w.hub, rec, now);
      StoredKeepsInv(w, stored, now, AppendStep(w.hub, rec, now).0);
    }
  }

  /** The hub after `stored` was appended, field by field. */
  ghost predicate Stored(h: Hub, stored: CutRecord, now: int, h': Hub)
    requires Bounded(h)
  {
    && (h'.records, h'.bytes) == Evict(h.records + [LogRecord(stored, now)], h.bytes + Size(stored), h.retention, now)
    && h'.head == h.head + 1 && h'.nextID == h.nextID && h'.retention == h.retention
    && h'.streams == ExpireAll(h.streams, Floor(h'), now)
  }

  lemma AppendStepIs(h: Hub, rec: CutRecord, now: int)
    requires Bounded(h) && h.head < MAX64 && Size(rec) <= h.retention.maxRecordBytes
    ensures AppendStep(h, rec, now).1 && Stored(h, Sealed(rec, h.head + 1), now, AppendStep(h, rec, now).0)
  {}

  lemma StoredKeepsInv(w: World, stored: CutRecord, now: int, h': Hub)
    requires Inv(w) && Bounded(w.hub) && w.hub.head < MAX64 && Stored(w.hub, stored, now, h')
    requires stored.cursor == |w.log| + 1 && Size(stored) <= w.hub.retention.maxRecordBytes
    ensures Inv(World(h', w.log + [stored], w.tapes)) && h'.records != [] && h'.records[|h'.records| - 1].rec == stored
    ensures forall id <- h'.streams :: h'.streams[id].state == Live ==> h'.streams[id].sent + 1 >= Floor(h')
  {
    var h := w.hub;
    LogAppend(h.retention, h.records, h.bytes, w.log, LogRecord(stored, now));
    StreamsAppend(h.streams, w.tapes, h.head, Floor(h), Floor(h'), now);
    TapesAppend(w.tapes, h.nextID, w.log, stored);
  }

  lemma StreamsPut(streams: map<nat, Stream>, tapes: map<nat, Tape>, head: nat, floor: nat, id: nat, s: Stream, t: Tape)
    requires StreamsOk(streams, tapes, head, floor) && (id in streams || |streams| < MAX_STREAMS)
    requires StreamOk(s, t, head, floor)
    ensures StreamsOk(streams[id := s], tapes[id := t], head, floor)
  {
    assert streams[id := s].Keys == streams.Keys + {id};
    assert id in streams ==> streams.Keys + {id} == streams.Keys;
  }

  lemma TapesPut(tapes: map<nat, Tape>, nextID: nat, nextID': nat, log: seq<CutRecord>, id: nat, t: Tape)
    requires TapesOk(tapes, nextID, log) && nextID <= nextID' <= MAX64 && 1 <= id <= nextID'
    requires TapeOk(t, log)
    ensures TapesOk(tapes[id := t], nextID', log)
  {}

  lemma WatchKeepsInv(w: World, spec: WatchSpec)
    requires Inv(w) && w.hub.nextID < MAX64 && spec.after <= MAX64
    ensures Bounded(w.hub) && Inv(WatchIn(w, spec))
  {
    InvBounded(w);
    var (h', reply) := WatchStep(w.hub, spec);
    if reply.Watching? {
      var t := Tape(spec.filter, spec.after, spec.after, spec.after, []);
      StreamsPut(w.hub.streams, w.tapes, w.hub.head, Floor(w.hub), reply.id, h'.streams[reply.id], t);
      TapesPut(w.tapes, w.hub.nextID, h'.nextID, w.log, reply.id, t);
    }
  }

  /** Replacing one stream by another whose invariant holds keeps the rest. */
  lemma UpdateKeepsInv(w: World, id: nat, s: Stream, t: Tape)
    requires Inv(w) && id in w.hub.streams
    requires StreamOk(s, t, w.hub.head, Floor(w.hub)) && TapeOk(t, w.log)
    ensures Inv(w.(hub := w.hub.(streams := w.hub.streams[id := s]), tapes := w.tapes[id := t]))
  {
    StreamsPut(w.hub.streams, w.tapes, w.hub.head, Floor(w.hub), id, s, t);
    TapesPut(w.tapes, w.hub.nextID, w.hub.nextID, w.log, id, t);
  }

  lemma AckKeepsInv(w: World, id: nat, session: string, conn: nat, position: nat)
    requires Inv(w) && position <= MAX64
    ensures Bounded(w.hub) && Inv(AckIn(w, id, session, conn, position))
  {
    InvBounded(w);
    if id in w.hub.streams {
      var s, t := w.hub.streams[id], w.tapes[id];
      assert StreamOk(s, t, w.hub.head, Floor(w.hub)) && TapeOk(t, w.log);
      if Acknowledges(w, id, session, conn, position) {
        UpdateKeepsInv(w, id, s.(acked := position), t.(acked := position));
      }
    }
  }

  lemma DeliverKeepsStream(s: Stream, t: Tape, records: seq<LogRecord>, log: seq<CutRecord>, floor: nat)
    requires forall i | 0 <= i < |log| :: log[i].cursor == i + 1
    requires Tail(records, log) && (log != [] ==> records != []) && floor == if records == [] then 0 else records[0].rec.cursor
    requires StreamOk(s, t, |log|, floor) && TapeOk(t, log) && s.sent + 1 >= floor
    ensures
      var (last, recs) := Deliver(records, 0, s.filter, s.sent, Available(s));
      var t' := t.(sent := last, delivered := t.delivered + recs);
      StreamOk(s.(sent := last), t', |log|, floor) && TapeOk(t', log)
  {
    var (last, recs) := Deliver(records, 0, s.filter, s.sent, Available(s));
    DeliverIsOwed(records, 0, log, s.filter, s.sent, Available(s));
    OwedConcat(s.filter, log, t.start, s.sent, last);
  }

  lemma DrainKeepsInv(w: World, id: nat, session: string, conn: nat, now: int)
    requires Inv(w)
    ensures Bounded(w.hub) && Inv(DrainFrom(w, id, session, conn, now))
  {
    InvBounded(w);
    if Owns(w.hub, id, session, conn) {
      var (h', reply) := DrainStep(w.hub, id, session, conn, now);
      var s, t, s' := w.hub.streams[id], w.tapes[id], h'.streams[id];
      var t' := t.(sent := s'.sent, delivered := t.delivered + reply.recs);
      assert h' == w.hub.(streams := w.hub.streams[id := s']);
      if ExpireBelow(s, Floor(w.hub), now).state == Live {
        DeliverKeepsStream(s, t, w.hub.records, w.log, Floor(w.hub));
      } else {
        assert t.delivered + [] == t.delivered;
      }
      UpdateKeepsInv(w, id, s', t');
    }
  }

  predicate IsClose(op: Op) {
    op.Cancel? || op.CloseConnection? || op.CloseSession? || op.Sweep?
  }

  /** A stream left alone, or cancelled while it was live. */
  predicate WasCut(s: Stream, s': Stream) {
    s' == s || (s.state == Live && s' == s.(state := Cancelled, reason := s'.reason, expiredAt := s'.expiredAt))
  }

  ghost predicate OnlyCuts(before: map<nat, Stream>, after: map<nat, Stream>) {
    after.Keys <= before.Keys && forall id <- after :: WasCut(before[id], after[id])
  }

  /** Cancelling, closing and sweeping only cut or remove streams. */
  lemma CloseOnlyCuts(w: World, op: Op)
    requires Bounded(w.hub) && WellTyped(op) && IsClose(op)
    ensures var streams := Apply(w, op).hub.streams; OnlyCuts(w.hub.streams, streams) && Apply(w, op) == w.(hub := w.hub.(streams := streams))
  {}

  lemma CloseKeepsInv(w: World, streams: map<nat, Stream>)
    requires Inv(w) && OnlyCuts(w.hub.streams, streams)
    ensures Inv(w.(hub := w.hub.(streams := streams)))
  {
    SubsetCardinality(streams.Keys, w.hub.streams.Keys);
  }

  lemma {:induction false} SubsetCardinality<T>(a: set<T>, b: set<T>)
    requires a <= b
    ensures |a| <= |b|
  {
    if x :| x in a {
      SubsetCardinality(a - {x}, b - {x});
    }
  }

  lemma ApplyKeepsInv(w: World, op: Op)
    requires Inv(w) && WellTyped(op) && w.hub.head < MAX64 && w.hub.nextID < MAX64
    ensures Bounded(w.hub) && Inv(Apply(w, op))
  {
    InvBounded(w);
    match op
    case Append(rec, now) => AppendKeepsInv(w, rec, now);
    case Watch(spec) => WatchKeepsInv(w, spec);
    case Ack(id, session, conn, position) => AckKeepsInv(w, id, session, conn, position);
    case Drain(id, session, conn, now) => DrainKeepsInv(w, id, session, conn, now);
    case _ =>
      CloseOnlyCuts(w, op);
      CloseKeepsInv(w, Apply(w, op).hub.streams);
  }

  lemma ApplyCounts(w: World, op: Op)
    requires Bounded(w.hub) && WellTyped(op) && w.hub.head < MAX64 && w.hub.nextID < MAX64
    ensures Apply(w, op).hub.head <= w.hub.head + 1 && Apply(w, op).hub.nextID <= w.hub.nextID + 1
  {}

  // ----- whole runs -----

  /** The operations fit a run that starts in w: well typed, and too few to wrap a uint64 counter. */
  ghost predicate Runnable(w: World, ops: seq<Op>) {
    && w.hub.head + |ops| <= MAX64 && w.hub.nextID + |ops| <= MAX64
    && forall i | 0 <= i < |ops| :: WellTyped(ops[i])
  }

  /** The world after a run; the invariant survives every run. */
  ghost function Run(w: World, ops: seq<Op>): (w': World)
    requires Inv(w) && Runnable(w, ops)
    ensures Inv(w')
    decreases |ops|
  {
    if ops == [] then w
    else
      ApplyKeepsInv(w, ops[0]);
      ApplyCounts(w, ops[0]);
      Run(Apply(w, ops[0]), ops[1..])
  }

  lemma InitInv(r: Retention)
    requires ValidRetention(r)
    ensures Inv(Init(r))
  {}

  ghost predicate Sound(o: seq<CutRecord>, f: Filter, log: seq<CutRecord>, lo: nat, hi: nat)
    requires hi <= |log|
  {
    forall k | 0 <= k < |o| :: lo < o[k].cursor <= hi && o[k] == Pick(f, log[o[k].cursor - 1]) && o[k].events != []
  }

  ghost predicate Ascending(o: seq<CutRecord>) {
    forall k, l | 0 <= k < l < |o| :: o[k].cursor < o[l].cursor
  }

  ghost predicate Complete(o: seq<CutRecord>, f: Filter, log: seq<CutRecord>, lo: nat, hi: nat)
    requires lo <= hi <= |log|
  {
    forall c | lo <= c < hi && Selects(f, log[c]) :: Pick(f, log[c]) in o
  }

  /** `o` is the matching part of the records with cursors in (lo, hi], in strict cursor order. */
  ghost predicate Selection(o: seq<CutRecord>, f: Filter, log: seq<CutRecord>, lo: nat, hi: nat)
    requires lo <= hi <= |log|
  {
    Sound(o, f, log, lo, hi) && Ascending(o) && Complete(o, f, log, lo, hi)
  }

  lemma SoundCons(x: CutRecord, o: seq<CutRecord>, f: Filter, log: seq<CutRecord>, lo: nat, hi: nat)
    requires lo < hi <= |log| && Sound(o, f, log, lo + 1, hi) && Ascending(o)
    requires x == Pick(f, log[lo]) && x.events != [] && x.cursor == lo + 1
    ensures Sound([x] + o, f, log, lo, hi) && Ascending([x] + o)
  {}

  lemma CompleteCons(x: CutRecord, o: seq<CutRecord>, f: Filter, log: seq<CutRecord>, lo: nat, hi: nat)
    requires lo < hi <= |log| && Complete(o, f, log, lo + 1, hi) && x == Pick(f, log[lo])
    ensures Complete([x] + o, f, log, lo, hi)
  {
    forall c | lo <= c < hi && Selects(f, log[c]) ensures Pick(f, log[c]) in [x] + o {
      assert c == lo || Pick(f, log[c]) in o;
    }
  }

  lemma SelectionSkip(o: seq<CutRecord>, f: Filter, log: seq<CutRecord>, lo: nat, hi: nat)
    requires lo < hi <= |log| && Selection(o, f, log, lo + 1, hi) && !Selects(f, log[lo])
    ensures Selection(o, f, log, lo, hi)
  {}

  lemma SelectionCons(x: CutRecord, o: seq<CutRecord>, f: Filter, log: seq<CutRecord>, lo: nat, hi: nat)
    requires lo < hi <= |log| && Selection(o, f, log, lo + 1, hi)
    requires x == Pick(f, log[lo]) && x.events != [] && x.cursor == lo + 1
    ensures Selection([x] + o, f, log, lo, hi)
  {
    SoundCons(x, o, f, log, lo, hi);
    CompleteCons(x, o, f, log, lo, hi);
  }

  lemma {:induction false} OwedIsSelection(f: Filter, log: seq<CutRecord>, lo: nat, hi: nat)
    requires forall i | 0 <= i < |log| :: log[i].cursor == i + 1
    requires lo <= hi <= |log|
    ensures Selection(Owed(f, log, lo, hi), f, log, lo, hi)
    decreases hi - lo
  {
    if lo < hi {
      OwedIsSelection(f, log, lo + 1, hi);
      var o := Owed(f, log, lo + 1, hi);
      if Selects(f, log[lo]) {
        SelectionCons(Pick(f, log[lo]), o, f, log, lo, hi);
      } else {
        assert [] + o == o;
        SelectionSkip(o, f, log, lo, hi);
      }
    }
  }

  /**
   * In every run, what a stream was handed over its whole life is, in strictly increasing
   * cursor order, the matching part of every appended record it passed: nothing invented,
   * nothing repeated, nothing skipped.
   */
  lemma DeliveredWithoutGap(r: Retention, ops: seq<Op>, id: nat)
    requires ValidRetention(r) && Runnable(Init(r), ops)
    requires id in Run(Init(r), ops).tapes
    ensures
      var w := Run(Init(r), ops);
      var t := w.tapes[id];
      t.start <= t.sent <= |w.log| && Selection(t.delivered, t.filter, w.log, t.start, t.sent)
  {
    InitInv(r);
    var w := Run(Init(r), ops);
    var t := w.tapes[id];
    assert TapeOk(t, w.log);
    OwedIsSelection(t.filter, w.log, t.start, t.sent);
  }

  // ----- explicit expiry -----

  /** No further delivery is possible: swept, terminal, or the next record is already evicted. */
  ghost predicate Dead(w: World, id: nat) {
    id in w.tapes &&
    (id !in w.hub.streams || w.hub.streams[id].state != Live || w.hub.streams[id].sent + 1 < Floor(w.hub))
  }

  /** Nothing more was delivered or passed over. */
  predicate SameReading(t: Tape, before: Tape) {
    t.filter == before.filter && t.start == before.start && t.sent == before.sent && t.delivered == before.delivered
  }

  lemma FloorOf(w: World)
    requires Inv(w)
    ensures w.hub.records != [] ==> Floor(w.hub) == |w.log| - |w.hub.records| + 1
  {}

  lemma {:induction false} EvictShrinks(records: seq<LogRecord>, bytes: int, r: Retention, now: int)
    ensures |Evict(records, bytes, r, now).0| <= |records|
    decreases |records|
  {
    if records != [] && Evictable(records, bytes, r, now) {
      EvictShrinks(records[1..], bytes - Size(records[0].rec), r, now);
    }
  }

  lemma FloorRises(w: World, rec: CutRecord, now: int)
    requires Inv(w) && w.hub.head < MAX64
    ensures Bounded(w.hub) && Floor(AppendTo(w, rec, now).hub) >= Floor(w.hub)
  {
    InvBounded(w);
    var w' := AppendTo(w, rec, now);
    AppendKeepsInv(w, rec, now);
    FloorOf(w);
    FloorOf(w');
    if Size(rec) <= w.hub.retention.maxRecordBytes {
      var stored := Sealed(rec, Inc64(w.hub.head));
      EvictShrinks(w.hub.records + [LogRecord(stored, now)], w.hub.bytes + Size(stored), w.hub.retention, now);
    }
  }

  lemma AppendLeavesDead(w: World, rec: CutRecord, now: int, id: nat)
    requires Inv(w) && w.hub.head < MAX64 && Dead(w, id)
    ensures Bounded(w.hub) && Dead(AppendTo(w, rec, now), id) && AppendTo(w, rec, now).tapes == w.tapes
  {
    FloorRises(w, rec, now);
    if id in w.hub.streams {
      assert StreamOk(w.hub.streams[id], w.tapes[id], w.hub.head, Floor(w.hub));
    }
  }

  lemma DrainWhenDead(h: Hub, id: nat, session: string, conn: nat, now: int)
    requires Bounded(h) && Owns(h, id, session, conn) && h.streams[id].sent < MAX64
    requires h.streams[id].state != Live || h.streams[id].sent + 1 < Floor(h)
    ensures
      var (h', reply) := DrainStep(h, id, session, conn, now);
      reply.recs == [] && id in h'.streams && h'.streams[id].state != Live && h'.streams[id].sent == h.streams[id].sent
  {}

  lemma DrainLeavesDead(w: World, target: nat, session: string, conn: nat, now: int, id: nat)
    requires Inv(w) && Dead(w, id) && w.hub.head < MAX64
    ensures Bounded(w.hub)
    ensures Dead(DrainFrom(w, target, session, conn, now), id) && DrainFrom(w, target, session, conn, now).tapes[id] == w.tapes[id]
  {
    InvBounded(w);
    if target == id && Owns(w.hub, id, session, conn) {
      assert StreamOk(w.hub.streams[id], w.tapes[id], w.hub.head, Floor(w.hub));
      DrainWhenDead(w.hub, id, session, conn, now);
      assert w.tapes[id].delivered + [] == w.tapes[id].delivered;
    }
  }

  lemma DeadStaysDead(w: World, op: Op, id: nat)
    requires Inv(w) && WellTyped(op) && w.hub.head < MAX64 && w.hub.nextID < MAX64 && Dead(w, id)
    ensures Bounded(w.hub) && Dead(Apply(w, op), id) && SameReading(Apply(w, op).tapes[id], w.tapes[id])
  {
    InvBounded(w);
    match op
    case Append(rec, now) => AppendLeavesDead(w, rec, now, id);
    case Drain(target, session, conn, now) => DrainLeavesDead(w, target, session, conn, now, id);
    case Watch(spec) => WatchLeavesDead(w, spec, id);
    case Ack(target, session, conn, position) => AckLeavesDead(w, target, session, conn, position, id);
    case _ => CloseOnlyCuts(w, op);
  }

  lemma WatchLeavesDead(w: World, spec: WatchSpec, id: nat)
    requires Inv(w) && w.hub.nextID < MAX64 && spec.after <= MAX64 && Dead(w, id)
    ensures Bounded(w.hub) && Dead(WatchIn(w, spec), id) && WatchIn(w, spec).tapes[id] == w.tapes[id]
  {
    InvBounded(w);
  }

  lemma AckLeavesDead(w: World, target: nat, session: string, conn: nat, position: nat, id: nat)
    requires Bounded(w.hub) && position <= MAX64 && Dead(w, id)
    ensures Dead(AckIn(w, target, session, conn, position), id) && SameReading(AckIn(w, target, session, conn, position).tapes[id], w.tapes[id])
  {}

  /**
   * A stream that expired, was cancelled, was swept, or whose next record was evicted is never
   * handed another record, whatever happens afterwards.
   */
  lemma {:induction false} NeverResumesAfterGap(w: World, ops: seq<Op>, id: nat)
    requires Inv(w) && Runnable(w, ops) && Dead(w, id)
    ensures Dead(Run(w, ops), id) && SameReading(Run(w, ops).tapes[id], w.tapes[id])
    decreases |ops|
  {
    if ops != [] {
      ApplyKeepsInv(w, ops[0]);
      ApplyCounts(w, ops[0]);
      DeadStaysDead(w, ops[0], id);
      NeverResumesAfterGap(Apply(w, ops[0]), ops[1..], id);
    }
  }

  // ----- credit -----

  lemma {:induction false} DeliversIffMatch(records: seq<LogRecord>, i: nat, f: Filter, sent: nat, credit: nat)
    requires i <= |records| && forall j, k | 0 <= j < k < |records| :: records[j].rec.cursor < records[k].rec.cursor
    ensures Deliver(records, i, f, sent, credit).1 != [] <==>
      credit > 0 && exists j | i <= j < |records| :: records[j].rec.cursor > sent && Selects(f, records[j].rec)
    decreases |records| - i
  {
    if i < |records| {
      var here := records[i].rec;
      if here.cursor <= sent {
        DeliversIffMatch(records, i + 1, f, sent, credit);
      } else if credit > 0 && !Selects(f, here) {
        DeliversIffMatch(records, i + 1, f, here.cursor, credit);
      }
    }
  }

  /** A drain that changes what the subscriber sees: it hands out records or reports expiry. */
  ghost predicate Productive(reply: DrainReply) {
    reply.recs != [] || (reply.status.Known? && reply.status.state == Expired)
  }

  lemma CursorsAscend(records: seq<LogRecord>, log: seq<CutRecord>)
    requires Tail(records, log) && forall i | 0 <= i < |log| :: log[i].cursor == i + 1
    ensures forall i, j | 0 <= i < j < |records| :: records[i].rec.cursor < records[j].rec.cursor
  {}

  lemma DrainReplies(h: Hub, id: nat, now: int)
    requires Bounded(h) && id in h.streams && h.streams[id].state == Live
    ensures
      var s := h.streams[id];
      var reply := DrainStep(h, id, s.session, s.connection, now).1;
      if Inc64(s.sent) < Floor(h) then reply == DrainReply([], Known(Expired, RetentionExhausted))
      else reply == DrainReply(Deliver(h.records, 0, s.filter, s.sent, Available(s)).1, StatusOf(s))
  {}

  lemma ProductiveIff(h: Hub, id: nat, now: int)
    requires Bounded(h) && id in h.streams && h.streams[id].state == Live
    requires forall i, j | 0 <= i < j < |h.records| :: h.records[i].rec.cursor < h.records[j].rec.cursor
    requires Inc64(h.streams[id].sent) < Floor(h) ==> Available(h.streams[id]) > 0
    ensures
      var s := h.streams[id];
      Productive(DrainStep(h, id, s.session, s.connection, now).1) <==> Available(s) > 0 && Sendable(h, s)
  {
    var s := h.streams[id];
    DrainReplies(h, id, now);
    DeliversIffMatch(h.records, 0, s.filter, s.sent, Available(s));
  }

  lemma DrainIsProductive(w: World, id: nat, now: int)
    requires Inv(w) && w.hub.head < MAX64 && id in w.hub.streams && w.hub.streams[id].state == Live
    ensures
      var s := w.hub.streams[id];
      Bounded(w.hub) &&
      (Productive(DrainStep(w.hub, id, s.session, s.connection, now).1) <==> Available(s) > 0 && Sendable(w.hub, s))
  {
    InvBounded(w);
    CursorsAscend(w.hub.records, w.log);
    var s := w.hub.streams[id];
    assert Inc64(s.sent) < Floor(w.hub) ==> Available(s) > 0 by {
      FloorOf(w);
      assert StreamOk(s, w.tapes[id], w.hub.head, Floor(w.hub));
    }
    ProductiveIff(w.hub, id, now);
  }

  /** Ack answers "sendable" exactly when a drain issued right after it delivers a record or reports expiry. */
  lemma AckForetellsDrain(w: World, id: nat, session: string, conn: nat, position: nat, now: int)
    requires Inv(w) && w.hub.head < MAX64 && position <= MAX64
    requires Owns(w.hub, id, session, conn) && w.hub.streams[id].state == Live
    requires w.hub.streams[id].acked <= position <= w.hub.streams[id].sent
    ensures
      Bounded(w.hub) &&
      var (h, reply) := AckStep(w.hub, id, session, conn, position);
      Bounded(h) && (reply.sendable <==> Productive(DrainStep(h, id, session, conn, now).1))
  {
    AckKeepsInv(w, id, session, conn, position);
    var w' := AckIn(w, id, session, conn, position);
    InvBounded(w');
    DrainIsProductive(w', id, now);
  }

  /**
   * The notification list names exactly the live streams whose unacknowledged span is below their
   * credit and whose drain would be productive; so a named stream always has a productive drain.
   */
  lemma NotifiedStreamsDrain(w: World, id: nat, now: int)
    requires Inv(w) && w.hub.head < MAX64 && id in w.hub.streams && w.hub.streams[id].state == Live
    ensures
      var s := w.hub.streams[id];
      Bounded(w.hub) &&
      (Notified(w.hub, id) <==>
        s.sent - s.acked < s.credit && Productive(DrainStep(w.hub, id, s.session, s.connection, now).1))
  {
    InvBounded(w);
    DrainIsProductive(w, id, now);
  }

  /** The unacknowledged span of a stream stays within its credit as long as its filter matches every appended record. */
  ghost predicate WindowHolds(s: Stream, log: seq<CutRecord>) {
    MatchesEvery(s.filter, log) ==> s.sent - s.acked <= s.credit
  }

  lemma MatchesPrefix(f: Filter, log: seq<CutRecord>, rec: CutRecord)
    requires MatchesEvery(f, log + [rec])
    ensures MatchesEvery(f, log)
  {
    assert forall i | 0 <= i < |log| :: (log + [rec])[i] == log[i];
  }

  lemma DeliverKeepsWindow(s: Stream, t: Tape, records: seq<LogRecord>, log: seq<CutRecord>, floor: nat)
    requires forall i | 0 <= i < |log| :: log[i].cursor == i + 1
    requires Tail(records, log) && |log| - |records| <= s.sent && StreamOk(s, t, |log|, floor) && WindowHolds(s, log)
    ensures WindowHolds(s.(sent := Deliver(records, 0, s.filter, s.sent, Available(s)).0), log)
  {
    DeliverIsOwed(records, 0, log, s.filter, s.sent, Available(s));
    var last := Deliver(records, 0, s.filter, s.sent, Available(s)).0;
    OwedLength(s.filter, log, s.sent, last);
  }

  lemma AppendKeepsPositions(h: Hub, rec: CutRecord, now: int, id: nat)
    requires Bounded(h) && id in h.streams
    ensures
      var h' := AppendStep(h, rec, now).0;
      id in h'.streams &&
      var s, s' := h.streams[id], h'.streams[id];
      s'.filter == s.filter && s'.sent == s.sent && s'.acked == s.acked && s'.credit == s.credit
  {}

  lemma AppendKeepsWindow(w: World, rec: CutRecord, now: int, id: nat)
    requires Bounded(w.hub) && w.hub.head < MAX64 && id in w.hub.streams && WindowHolds(w.hub.streams[id], w.log)
    ensures
      var w' := AppendTo(w, rec, now);
      id in w'.hub.streams && WindowHolds(w'.hub.streams[id], w'.log)
  {
    AppendKeepsPositions(w.hub, rec, now, id);
    var f, stored := w.hub.streams[id].filter, Sealed(rec, w.hub.head + 1);
    if MatchesEvery(f, w.log + [stored]) {
      MatchesPrefix(f, w.log, stored);
    }
  }

  lemma DrainMoves(h: Hub, target: nat, session: string, conn: nat, now: int, id: nat)
    requires Bounded(h) && id in h.streams
    ensures
      var h' := DrainStep(h, target, session, conn, now).0;
      id in h'.streams &&
      var s, s' := h.streams[id], h'.streams[id];
      && s'.filter == s.filter && s'.acked == s.acked && s'.credit == s.credit
      && (s'.sent == s.sent || (Inc64(s.sent) >= Floor(h) && s'.sent == Deliver(h.records, 0, s.filter, s.sent, Available(s)).0))
  {}

  /** No live stream is waiting for a record before the retained tail, once it has a position to resume from. */
  lemma ResumableIsRetained(w: World, id: nat)
    requires Inv(w) && id in w.hub.streams && w.hub.streams[id].sent <= MAX64 && Inc64(w.hub.streams[id].sent) >= Floor(w.hub)
    ensures |w.log| - |w.hub.records| <= w.hub.streams[id].sent
  {
    FloorOf(w);
  }

  lemma DrainKeepsWindow(w: World, target: nat, session: string, conn: nat, now: int, id: nat)
    requires Inv(w) && id in w.hub.streams && WindowHolds(w.hub.streams[id], w.log)
    ensures Bounded(w.hub)
    ensures
      var w' := DrainFrom(w, target, session, conn, now);
      w'.log == w.log && id in w'.hub.streams && WindowHolds(w'.hub.streams[id], w.log)
  {
    InvBounded(w);
    var s := w.hub.streams[id];
    DrainMoves(w.hub, target, session, conn, now, id);
    if Inc64(s.sent) >= Floor(w.hub) {
      ResumableIsRetained(w, id);
      DeliverKeepsWindow(s, w.tapes[id], w.hub.records, w.log, Floor(w.hub));
    }
  }

  lemma WatchKeepsWindow(h: Hub, log: seq<CutRecord>, spec: WatchSpec, id: nat)
    requires Bounded(h) && spec.after <= MAX64 && (id in h.streams ==> WindowHolds(h.streams[id], log))
    ensures id in WatchStep(h, spec).0.streams ==> WindowHolds(WatchStep(h, spec).0.streams[id], log)
  {}

  lemma AckKeepsWindow(h: Hub, log: seq<CutRecord>, target: nat, session: string, conn: nat, position: nat, id: nat)
    requires Bounded(h) && position <= MAX64 && (id in h.streams ==> WindowHolds(h.streams[id], log))
    ensures
      var h' := AckStep(h, target, session, conn, position).0;
      id in h'.streams ==> WindowHolds(h'.streams[id], log)
  {}

  lemma StepKeepsWindow(w: World, op: Op, id: nat)
    requires Inv(w) && WellTyped(op) && w.hub.head < MAX64 && w.hub.nextID < MAX64
    requires id in w.hub.streams ==> WindowHolds(w.hub.streams[id], w.log)
    ensures Bounded(w.hub)
    ensures id in Apply(w, op).hub.streams ==> WindowHolds(Apply(w, op).hub.streams[id], Apply(w, op).log)
  {
    InvBounded(w);
    match op
    case Append(rec, now) => if id in w.hub.streams { AppendKeepsWindow(w, rec, now, id); }
    case Watch(spec) => WatchKeepsWindow(w.hub, w.log, spec, id);
    case Ack(target, session, conn, position) => AckKeepsWindow(w.hub, w.log, target, session, conn, position, id);
    case Drain(target, session, conn, now) => if id in w.hub.streams { DrainKeepsWindow(w, target, session, conn, now, id); }
    case _ => CloseKeepsWindow(w, op, id);
  }

  lemma CloseKeepsWindow(w: World, op: Op, id: nat)
    requires Bounded(w.hub) && WellTyped(op) && IsClose(op) && (id in w.hub.streams ==> WindowHolds(w.hub.streams[id], w.log))
    ensures id in Apply(w, op).hub.streams ==> WindowHolds(Apply(w, op).hub.streams[id], Apply(w, op).log)
  {
    CloseOnlyCuts(w, op);
  }

  /** Only cursors that matched nothing can push the unacknowledged span past the credit window, in any run. */
  lemma {:induction false} WindowHoldsWhenEverythingMatches(w: World, ops: seq<Op>, id: nat)
    requires Inv(w) && Runnable(w, ops)
    requires id in w.hub.streams ==> WindowHolds(w.hub.streams[id], w.log)
    ensures id in Run(w, ops).hub.streams ==> WindowHolds(Run(w, ops).hub.streams[id], Run(w, ops).log)
    decreases |ops|
  {
    if ops != [] {
      ApplyKeepsInv(w, ops[0]);
      ApplyCounts(w, ops[0]);
      StepKeepsWindow(w, ops[0], id);
      WindowHoldsWhenEverythingMatches(Apply(w, ops[0]), ops[1..], id);
    }
  }

  lemma DeliverCount(s: Stream, t: Tape, records: seq<LogRecord>, log: seq<CutRecord>, floor: nat)
    requires forall i | 0 <= i < |log| :: log[i].cursor == i + 1
    requires Tail(records, log) && |log| - |records| <= s.sent && StreamOk(s, t, |log|, floor)
    ensures
      var owed := Owed(s.filter, log, s.sent, |log|);
      var recs := Deliver(records, 0, s.filter, s.sent, Available(s)).1;
      && recs <= owed
      && (|recs| <= s.credit <==> s.sent - s.acked <= s.credit || |owed| <= s.credit)
  {
    DeliverIsOwed(records, 0, log, s.filter, s.sent, Available(s));
    var last := Deliver(records, 0, s.filter, s.sent, Available(s)).0;
    OwedConcat(s.filter, log, s.sent, last, |log|);
    OwedLength(s.filter, log, s.sent, |log|);
  }

  /**
   * A drain hands out more records than the credit window exactly when the unacknowledged span
   * already exceeds the window (so the unsigned subtraction wraps) and more than a window of
   * matching records is waiting.
   */
  lemma DrainWithinWindowIff(w: World, id: nat, now: int)
    requires Inv(w) && id in w.hub.streams && w.hub.streams[id].state == Live
    requires w.hub.streams[id].sent + 1 >= Floor(w.hub)
    ensures
      var s := w.hub.streams[id];
      var owed := Owed(s.filter, w.log, s.sent, |w.log|);
      Bounded(w.hub) &&
      var recs := DrainStep(w.hub, id, s.session, s.connection, now).1.recs;
      && recs <= owed
      && (|recs| <= s.credit <==> s.sent - s.acked <= s.credit || |owed| <= s.credit)
  {
    InvBounded(w);
    FloorOf(w);
    var s := w.hub.streams[id];
    assert StreamOk(s, w.tapes[id], w.hub.head, Floor(w.hub));
    if s.sent < MAX64 {
      DrainDelivers(w.hub, id, now);
      DeliverCount(s, w.tapes[id], w.hub.records, w.log, Floor(w.hub));
    } else {
      DrainAtTop(w.hub, id, now);
    }
  }

  /** At the largest cursor `sent + 1` wraps to 0 and there is nothing left to deliver. */
  lemma DrainAtTop(h: Hub, id: nat, now: int)
    requires Bounded(h) && id in h.streams && h.streams[id].state == Live && h.streams[id].sent == MAX64
    requires forall i | 0 <= i < |h.records| :: h.records[i].rec.cursor <= MAX64
    ensures var s := h.streams[id]; DrainStep(h, id, s.session, s.connection, now).1.recs == []
  {
    var s := h.streams[id];
    NothingPast(h.records, 0, s.filter, s.sent, Available(s));
  }

  lemma {:induction false} NothingPast(records: seq<LogRecord>, i: nat, f: Filter, sent: nat, credit: nat)
    requires i <= |records| && forall j | 0 <= j < |records| :: records[j].rec.cursor <= sent
    ensures Deliver(records, i, f, sent, credit).1 == []
    decreases |records| - i
  {
    if i < |records| { NothingPast(records, i + 1, f, sent, credit); }
  }

  lemma DrainDelivers(h: Hub, id: nat, now: int)
    requires Bounded(h) && id in h.streams && h.streams[id].state == Live && h.streams[id].sent < MAX64 && h.streams[id].sent + 1 >= Floor(h)
    ensures var s := h.streams[id]; DrainStep(h, id, s.session, s.connection, now).1.recs == Deliver(h.records, 0, s.filter, s.sent, Available(s)).1
  {}

  /** Records that match nothing move `sent` to the head without spending credit, so the span grows without a delivery. */
  lemma NoiseWidensSpan(w: World, id: nat, now: int)
    requires Inv(w) && w.hub.head < MAX64 && id in w.hub.streams && w.hub.streams[id].state == Live
    requires w.hub.streams[id].sent + 1 >= Floor(w.hub)
    requires w.hub.streams[id].sent - w.hub.streams[id].acked < w.hub.streams[id].credit
    requires Owed(w.hub.streams[id].filter, w.log, w.hub.streams[id].sent, |w.log|) == []
    ensures
      var s := w.hub.streams[id];
      Bounded(w.hub) && DrainStep(w.hub, id, s.session, s.connection, now) ==
        (w.hub.(streams := w.hub.streams[id := s.(sent := w.hub.head)]), DrainReply([], StatusOf(s)))
  {
    InvBounded(w);
    ResumableIsRetained(w, id);
    var s := w.hub.streams[id];
    DeliverIsOwed(w.hub.records, 0, w.log, s.filter, s.sent, Available(s));
  }
}
