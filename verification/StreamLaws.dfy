/**
 * What the operations of drive/stream.go mean, said on the fields of records, filters and streams: which events a
 * filter lets through, what a delivered record holds, which records retention drops, and what each operation changes.
 */
module StreamLaws {
  import opened Machine
  import opened StreamModel
  import opened StreamRuns

  // ----- filters and records -----

  /**
   * A class list lets through only its classes, an empty one every class; a name list lets through only its names, and
   * only of state changes: events of another class pass whatever their name.
   */
  lemma FilterMeaning(f: Filter, ev: Event)
    ensures f.classes == [] && f.names == [] ==> Matches(f, ev)
    ensures Matches(f, ev) && f.classes != [] ==> exists i :: 0 <= i < |f.classes| && f.classes[i] == ev.cls
    ensures Matches(f, ev) && f.names != [] && ev.cls == StateChanged ==> exists i :: 0 <= i < |f.names| && f.names[i] == ev.name
    ensures !Matches(f, ev) ==> (f.classes != [] && forall i | 0 <= i < |f.classes| :: f.classes[i] != ev.cls) || (ev.cls == StateChanged && f.names != [] && forall i | 0 <= i < |f.names| :: f.names[i] != ev.name)
  {}

  /** ps lists, in ascending order, exactly the positions below n whose event passes the filter. */
  ghost predicate PassingPositions(f: Filter, events: seq<Event>, ps: seq<nat>) {
    && (forall i, j | 0 <= i < j < |ps| :: ps[i] < ps[j])
    && (forall i | 0 <= i < |ps| :: ps[i] < |events| && Matches(f, events[ps[i]]))
    && (forall p | 0 <= p < |events| && Matches(f, events[p]) :: p in ps)
  }

  /** `out` is the events at the given positions. */
  ghost predicate EventsAt(out: seq<Event>, events: seq<Event>, ps: seq<nat>) {
    |out| == |ps| && forall i | 0 <= i < |ps| :: ps[i] < |events| && out[i] == events[ps[i]]
  }

  /** Positions in the tail of a list, seen from its head, with the head in front if it passes. */
  function Shifted(f: Filter, events: seq<Event>, rest: seq<nat>): (ps: seq<nat>)
    requires events != []
    ensures
      var n := if Matches(f, events[0]) then 1 else 0;
      |ps| == |rest| + n && (n == 1 ==> ps[0] == 0) && forall i | 0 <= i < |rest| :: ps[n + i] == rest[i] + 1
  {
    (if Matches(f, events[0]) then [0] else []) + seq(|rest|, i requires 0 <= i < |rest| => rest[i] + 1)
  }

  lemma ShiftedPasses(f: Filter, events: seq<Event>, rest: seq<nat>)
    requires events != [] && PassingPositions(f, events[1..], rest)
    ensures PassingPositions(f, events, Shifted(f, events, rest))
  {
    var ps, n := Shifted(f, events, rest), if Matches(f, events[0]) then 1 else 0;
    forall i | 0 <= i < |ps| ensures ps[i] < |events| && Matches(f, events[ps[i]]) && (i >= n ==> ps[i] == rest[i - n] + 1) {
      if i >= n { assert ps[n + (i - n)] == rest[i - n] + 1 && events[1..][rest[i - n]] == events[ps[i]]; }
    }
    forall p | 0 <= p < |events| && Matches(f, events[p]) ensures p in ps {
      if p == 0 {
        assert ps[0] == 0;
      } else {
        assert events[1..][p - 1] == events[p];
        var k :| 0 <= k < |rest| && rest[k] == p - 1;
        assert ps[n + k] == p;
      }
    }
  }

  lemma ShiftedEvents(f: Filter, events: seq<Event>, rest: seq<nat>)
    requires events != [] && EventsAt(Matched(f, events[1..]), events[1..], rest)
    ensures EventsAt(Matched(f, events), events, Shifted(f, events, rest))
  {
    var ps, n, out := Shifted(f, events, rest), if Matches(f, events[0]) then 1 else 0, Matched(f, events);
    forall i | 0 <= i < |ps| ensures ps[i] < |events| && out[i] == events[ps[i]] {
      if i >= n { assert ps[n + (i - n)] == rest[i - n] + 1 && out[i] == Matched(f, events[1..])[i - n]; }
    }
  }

  /** The matched events are exactly the passing ones, each once, in order. */
  lemma {:induction false} MatchedMeaning(f: Filter, events: seq<Event>) returns (ps: seq<nat>)
    ensures PassingPositions(f, events, ps) && EventsAt(Matched(f, events), events, ps)
  {
    if events == [] {
      ps := [];
    } else {
      var rest := MatchedMeaning(f, events[1..]);
      ShiftedPasses(f, events, rest);
      ShiftedEvents(f, events, rest);
      ps := Shifted(f, events, rest);
    }
  }

  /** A record is worth delivering exactly when some event of it passes. */
  lemma SelectsMeaning(f: Filter, rec: CutRecord)
    ensures Selects(f, rec) <==> exists i :: 0 <= i < |rec.events| && Matches(f, rec.events[i])
  {
    var ps := MatchedMeaning(f, rec.events);
    if Selects(f, rec) { assert Matches(f, rec.events[ps[0]]); }
  }

  /** What a subscriber is handed for an appended record: its cursor, cut and frame, and exactly its passing events. */
  ghost predicate Shows(out: CutRecord, f: Filter, rec: CutRecord) {
    && out.cursor == rec.cursor && out.cut == rec.cut && out.frame == rec.frame
    && exists ps :: PassingPositions(f, rec.events, ps) && EventsAt(out.events, rec.events, ps)
  }

  lemma PickShows(f: Filter, rec: CutRecord)
    ensures Shows(Pick(f, rec), f, rec)
  {
    var ps := MatchedMeaning(f, rec.events);
  }

  ghost predicate SomePasses(f: Filter, rec: CutRecord) {
    exists i :: 0 <= i < |rec.events| && Matches(f, rec.events[i])
  }

  ghost predicate DeliveredAt(delivered: seq<CutRecord>, cursor: nat) {
    exists k :: 0 <= k < |delivered| && delivered[k].cursor == cursor
  }

  /**
   * Each delivered record is an appended record of the span (start, sent], shown with exactly its passing events, in
   * order of cursor; and every record of that span with a passing event was delivered.
   */
  ghost predicate DeliversSpan(delivered: seq<CutRecord>, f: Filter, log: seq<CutRecord>, start: nat, sent: nat) {
    && start <= sent <= |log|
    && (forall k | 0 <= k < |delivered| :: DeliversOne(delivered[k], f, log, start, sent))
    && (forall k, l | 0 <= k < l < |delivered| :: delivered[k].cursor < delivered[l].cursor)
    && (forall c | start <= c < sent && SomePasses(f, log[c]) :: DeliveredAt(delivered, c + 1))
  }

  ghost predicate DeliversOne(out: CutRecord, f: Filter, log: seq<CutRecord>, start: nat, sent: nat) {
    start < out.cursor <= sent <= |log| && Shows(out, f, log[out.cursor - 1])
  }

  lemma SelectionDelivers(delivered: seq<CutRecord>, f: Filter, log: seq<CutRecord>, start: nat, sent: nat)
    requires start <= sent <= |log| && Selection(delivered, f, log, start, sent) && forall i | 0 <= i < |log| :: log[i].cursor == i + 1
    ensures DeliversSpan(delivered, f, log, start, sent)
  {
    forall k | 0 <= k < |delivered| ensures DeliversOne(delivered[k], f, log, start, sent) {
      PickShows(f, log[delivered[k].cursor - 1]);
    }
    forall c | start <= c < sent && SomePasses(f, log[c]) ensures DeliveredAt(delivered, c + 1) {
      SelectsMeaning(f, log[c]);
      assert Pick(f, log[c]) in delivered;
    }
  }

  /** In every run a stream is delivered the whole of the span it passed, and nothing else. */
  lemma DeliveredRecords(r: Retention, ops: seq<Op>, id: nat)
    requires ValidRetention(r) && Runnable(Init(r), ops) && id in Run(Init(r), ops).tapes
    ensures
      var w := Run(Init(r), ops);
      DeliversSpan(w.tapes[id].delivered, w.tapes[id].filter, w.log, w.tapes[id].start, w.tapes[id].sent)
  {
    DeliveredWithoutGap(r, ops, id);
    var w := Run(Init(r), ops);
    CursorsCount(w);
    SelectionDelivers(w.tapes[id].delivered, w.tapes[id].filter, w.log, w.tapes[id].start, w.tapes[id].sent);
  }

  lemma CursorsCount(w: World)
    requires Inv(w)
    ensures forall i | 0 <= i < |w.log| :: w.log[i].cursor == i + 1
  {}

  /** The stored record is the appended one under the next cursor, its events renumbered from 0 and otherwise unchanged. */
  lemma StoredMeaning(w: World, rec: CutRecord, now: int)
    requires Inv(w) && w.hub.head < MAX64 && Size(rec) <= w.hub.retention.maxRecordBytes
    ensures Bounded(w.hub) && |AppendTo(w, rec, now).log| == |w.log| + 1
    ensures
      var last := AppendTo(w, rec, now).log[|w.log|];
      && last.cursor == w.hub.head + 1 && last.cut == rec.cut && last.frame == rec.frame && |last.events| == |rec.events|
      && forall i | 0 <= i < |rec.events| :: last.events[i] == Event(i, rec.events[i].cls, rec.events[i].name, rec.events[i].payload)
  {
    InvBounded(w);
  }

  // ----- retention -----

  /** Record j, with everything before it gone, breaks one of the three retention bounds. */
  predicate Overdue(records: seq<LogRecord>, j: nat, r: Retention, now: int)
    requires j < |records|
  {
    |records| - j > r.maxRecords || TotalSize(records[j..]) > r.maxBytes || now - records[j].at >= r.age
  }

  /** Retention drops the oldest records, each only while a bound of count, bytes or age is broken, and then no bound is. */
  lemma {:induction false} EvictionIsLeast(records: seq<LogRecord>, r: Retention, now: int) returns (d: nat)
    ensures d <= |records| && Evict(records, TotalSize(records), r, now).0 == records[d..]
    ensures forall j | 0 <= j < d :: Overdue(records, j, r, now)
    ensures d < |records| ==> !Overdue(records, d, r, now)
    decreases |records|
  {
    assert records[0..] == records;
    if records == [] || !Evictable(records, TotalSize(records), r, now) {
      d := 0;
    } else {
      var rest := records[1..];
      var e := EvictionIsLeast(rest, r, now);
      d := e + 1;
      assert rest[e..] == records[d..];
      forall j | 0 <= j < d ensures Overdue(records, j, r, now) {
        if j > 0 {
          assert rest[j - 1..] == records[j..] && Overdue(rest, j - 1, r, now);
        }
      }
    }
  }

  // ----- acknowledgement -----

  /** In every run the hub's acknowledged position is the one the client last had accepted. */
  lemma AckedIsAcknowledged(r: Retention, ops: seq<Op>, id: nat)
    requires ValidRetention(r) && Runnable(Init(r), ops) && id in Run(Init(r), ops).hub.streams
    ensures var w := Run(Init(r), ops); id in w.tapes && w.hub.streams[id].acked == w.tapes[id].acked
  {
    var w := Run(Init(r), ops);
    assert StreamOk(w.hub.streams[id], w.tapes[id], w.hub.head, Floor(w.hub));
  }

  /** An acknowledgement is answered by what it was: taken, out of range, or none of the caller's business. */
  lemma AckMeaning(w: World, id: nat, session: string, conn: nat, position: nat)
    requires Inv(w) && position <= MAX64
    ensures Bounded(w.hub)
    ensures
      var (h, reply) := AckStep(w.hub, id, session, conn, position);
      && (!(id in w.hub.streams && w.hub.streams[id].session == session && w.hub.streams[id].connection == conn) ==> reply == AckReply(Unknown, false) && h == w.hub)
      && (Acknowledges(w, id, session, conn, position) ==>
           h == w.hub.(streams := w.hub.streams[id := w.hub.streams[id].(acked := position)]) && reply.status == Known(Live, w.hub.streams[id].reason))
      && (!Acknowledges(w, id, session, conn, position) ==> h == w.hub && !reply.sendable)
      && (id in w.hub.streams && w.hub.streams[id].session == session && w.hub.streams[id].connection == conn && w.hub.streams[id].state == Live && !Acknowledges(w, id, session, conn, position) ==> reply.status == Known(Live, AckOutOfRange))
  {
    InvBounded(w);
    if id in w.hub.streams { assert StreamOk(w.hub.streams[id], w.tapes[id], w.hub.head, Floor(w.hub)); }
  }

  /** How many of the records lie above a position. */
  function Above(recs: seq<CutRecord>, position: nat, n: nat): nat
    requires n <= |recs|
  {
    if n == 0 then 0 else Above(recs, position, n - 1) + if recs[n - 1].cursor > position then 1 else 0
  }

  lemma {:induction false} AboveSplit(a: seq<CutRecord>, b: seq<CutRecord>, position: nat, n: nat)
    requires n <= |b| && (forall i | 0 <= i < |a| :: a[i].cursor <= position)
    ensures Above(a + b, position, |a| + n) <= n
  {
    if n > 0 { AboveSplit(a, b, position, n - 1); } else { NoneAbove(a + b, position, |a|); }
  }

  lemma {:induction false} NoneAbove(recs: seq<CutRecord>, position: nat, n: nat)
    requires n <= |recs| && forall i | 0 <= i < n :: recs[i].cursor <= position
    ensures Above(recs, position, n) == 0
  {
    if n > 0 { NoneAbove(recs, position, n - 1); }
  }

  /** A filter that lets an event of every appended record through. */
  ghost predicate PassesAll(f: Filter, log: seq<CutRecord>) {
    forall i | 0 <= i < |log| :: SomePasses(f, log[i])
  }

  /**
   * In every run a stream whose filter passes something of every record has at most its credit of delivered records
   * above the position the client last acknowledged.
   */
  lemma UnacknowledgedWithinCredit(r: Retention, ops: seq<Op>, id: nat)
    requires ValidRetention(r) && Runnable(Init(r), ops) && id in Run(Init(r), ops).hub.streams
    requires PassesAll(Run(Init(r), ops).hub.streams[id].filter, Run(Init(r), ops).log)
    ensures
      var w := Run(Init(r), ops);
      id in w.tapes && Above(w.tapes[id].delivered, w.tapes[id].acked, |w.tapes[id].delivered|) <= w.hub.streams[id].credit
  {
    InitInv(r);
    WindowHoldsWhenEverythingMatches(Init(r), ops, id);
    var w := Run(Init(r), ops);
    var s, t := w.hub.streams[id], w.tapes[id];
    assert StreamOk(s, t, w.hub.head, Floor(w.hub)) && TapeOk(t, w.log);
    forall i | 0 <= i < |w.log| ensures Selects(s.filter, w.log[i]) { SelectsMeaning(s.filter, w.log[i]); }
    assert MatchesEvery(s.filter, w.log);
    SpanBoundsUnacknowledged(t, w.log);
  }

  lemma SpanBoundsUnacknowledged(t: Tape, log: seq<CutRecord>)
    requires TapeOk(t, log) && forall i | 0 <= i < |log| :: log[i].cursor == i + 1
    ensures Above(t.delivered, t.acked, |t.delivered|) <= t.sent - t.acked
  {
    var a, b := Owed(t.filter, log, t.start, t.acked), Owed(t.filter, log, t.acked, t.sent);
    OwedConcat(t.filter, log, t.start, t.acked, t.sent);
    OwedIsSelection(t.filter, log, t.start, t.acked);
    OwedLength(t.filter, log, t.acked, t.sent);
    AboveSplit(a, b, t.acked, |b|);
  }

  /** The credit left to a stream as the code computes it: the subtraction wraps once the span exceeds the credit. */
  function CreditLeft(s: Stream): int {
    var span := s.sent - s.acked;
    if span <= s.credit then s.credit - span else 0x1_0000_0000_0000_0000 + s.credit - span
  }

  /**
   * A drain of a live stream whose next record is retained hands out the first owed records up to the credit left, and
   * leaves the stream at the head unless the credit ran out. It changes nothing else.
   */
  lemma DrainMeaning(w: World, id: nat, now: int)
    requires Inv(w) && w.hub.head < MAX64 && id in w.hub.streams && w.hub.streams[id].state == Live
    requires w.hub.streams[id].sent + 1 >= Floor(w.hub)
    ensures Bounded(w.hub)
    ensures
      var s := w.hub.streams[id];
      var owed := Owed(s.filter, w.log, s.sent, |w.log|);
      var (h, reply) := DrainStep(w.hub, id, s.session, s.connection, now);
      && |reply.recs| == (if CreditLeft(s) <= |owed| then CreditLeft(s) else |owed|) && reply.recs <= owed
      && id in h.streams && h == w.hub.(streams := w.hub.streams[id := s.(sent := h.streams[id].sent)])
      && (|reply.recs| < CreditLeft(s) ==> h.streams[id].sent == w.hub.head)
      && reply.status == Known(Live, s.reason)
  {
    InvBounded(w);
    FloorOf(w);
    var s := w.hub.streams[id];
    assert StreamOk(s, w.tapes[id], w.hub.head, Floor(w.hub));
    DeliverIsOwed(w.hub.records, 0, w.log, s.filter, s.sent, Available(s));
    var last := Deliver(w.hub.records, 0, s.filter, s.sent, Available(s)).0;
    OwedConcat(s.filter, w.log, s.sent, last, |w.log|);
  }

  // ----- subscribing and ending -----

  /** Known classes, none twice, and no empty name. */
  ghost predicate Acceptable(f: Filter) {
    && (forall i | 0 <= i < |f.classes| :: !f.classes[i].Unsupported?)
    && (forall i, j | 0 <= i < j < |f.classes| :: f.classes[i] != f.classes[j])
    && (forall i | 0 <= i < |f.names| :: f.names[i] != "")
  }

  lemma AcceptableMeaning(f: Filter)
    ensures ValidFilter(f) <==> Acceptable(f)
  {
    if ValidFilter(f) {
      forall i | 0 <= i < |f.classes| ensures !f.classes[i].Unsupported? { assert f.classes[i] in f.classes; }
      forall i | 0 <= i < |f.names| ensures f.names[i] != "" { assert f.names[i] in f.names; }
    }
  }

  /** The position is 0, or the record after it is retained or still to come (at the largest cursor: nothing is retained). */
  predicate Recoverable(h: Hub, after: nat) {
    after == 0 || h.records == [] || (if after < MAX64 then after + 1 else 0) >= h.records[0].rec.cursor
  }

  /** A watch is accepted exactly under these conditions, and is otherwise refused without effect. */
  lemma WatchMeaning(h: Hub, spec: WatchSpec)
    requires Bounded(h) && spec.after <= MAX64
    ensures WatchStep(h, spec).1.Watching? <==>
      1 <= spec.credit <= 8 && Acceptable(spec.filter) && |h.streams| < 64 && spec.after <= h.head && Recoverable(h, spec.after)
    ensures WatchStep(h, spec).1.Refused? ==> WatchStep(h, spec).0 == h
  {
    AcceptableMeaning(spec.filter);
  }

  /** The new stream is live and unacknowledged at its position, under the next number; nothing else changes. */
  lemma WatchedStream(h: Hub, spec: WatchSpec)
    requires Bounded(h) && h.nextID < MAX64 && spec.after <= MAX64 && WatchStep(h, spec).1.Watching?
    ensures WatchStep(h, spec).1.id == h.nextID + 1
    ensures WatchStep(h, spec).0 == h.(nextID := h.nextID + 1, streams := h.streams[h.nextID + 1 :=
        Stream(spec.session, spec.connection, spec.filter, spec.credit, Live, NoReason, spec.after, spec.after, None)])
  {}

  /** Only live streams whose next record is gone expire, and they say why and when. */
  lemma ExpiryMeaning(s: Stream, floor: nat, now: int)
    requires s.sent < MAX64
    ensures
      var s' := ExpireBelow(s, floor, now);
      && (s.state == Live && s.sent + 1 < floor ==> s'.state == Expired && s'.reason == RetentionExhausted && s'.expiredAt == Some(now))
      && (!(s.state == Live && s.sent + 1 < floor) ==> s' == s)
      && s'.sent == s.sent && s'.acked == s.acked && s'.filter == s.filter && s'.credit == s.credit && s'.session == s.session && s'.connection == s.connection
  {}

  /** A live stream ended for this reason at this time, everything else about it unchanged. */
  predicate EndedFor(s: Stream, s': Stream, reason: Reason, now: int) {
    s' == if s.state == Live then Stream(s.session, s.connection, s.filter, s.credit, Cancelled, reason, s.sent, s.acked, Some(now)) else s
  }

  /** Closing a connection or a session ends exactly its own live streams; cancelling ends exactly the named one. */
  lemma CloseMeaning(h: Hub, conn: nat, session: string, target: nat, now: int)
    ensures
      var byConn, bySession, byOwner := CloseConnectionStep(h, conn, now), CloseSessionStep(h, session, now), CancelStep(h, target, now).0;
      && byConn.streams.Keys == h.streams.Keys && bySession.streams.Keys == h.streams.Keys && byOwner.streams.Keys == h.streams.Keys
      && forall id <- h.streams ::
           && (if h.streams[id].connection == conn then EndedFor(h.streams[id], byConn.streams[id], ConnectionLost, now) else byConn.streams[id] == h.streams[id])
           && (if h.streams[id].session == session then EndedFor(h.streams[id], bySession.streams[id], SessionRevoked, now) else bySession.streams[id] == h.streams[id])
           && (if id == target then EndedFor(h.streams[id], byOwner.streams[id], CancelledByOwner, now) else byOwner.streams[id] == h.streams[id])
  {}

  /** Sweeping removes exactly the streams that ended more than ten minutes ago. */
  lemma SweepMeaning(h: Hub, now: int, id: nat)
    requires id in h.streams
    ensures id !in SweepStep(h, now).streams <==>
      h.streams[id].state != Live && h.streams[id].expiredAt.Some? && now - h.streams[id].expiredAt.value > 600_000_000_000
    ensures id in SweepStep(h, now).streams ==> SweepStep(h, now).streams[id] == h.streams[id]
  {}

  /** The size charged for a record: 64 bytes, and 48 plus name and payload for each event. */
  lemma SizeMeaning(rec: CutRecord, ev: Event)
    ensures rec.events == [] ==> Size(rec) == 64
    ensures Size(rec.(events := [ev] + rec.events)) == Size(rec) + 48 + |ev.name| + |ev.payload|
  {
    assert ([ev] + rec.events)[1..] == rec.events;
  }
}
