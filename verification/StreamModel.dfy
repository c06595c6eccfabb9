/**
 * The shared bounded event log of drive/stream.go as a value and a step function per
 * operation. Stream identifiers are the numbers the code formats as "s1", "s2", ...;
 * payload bytes are characters, since only their count matters here.
 */
module StreamModel {
  import opened Machine

  const MAX_STREAMS := 64
  const SWEEP_AGE := 600_000_000_000 // ten minutes in nanoseconds

  datatype EventClass = StateChanged | TreeChanged | FrameCompleted | FrameReady | OwnPreempted | OperationTerminal | Unsupported(tag: string)
  datatype Event = Event(ordinal: nat, cls: EventClass, name: string, payload: string)
  datatype CutRecord = CutRecord(cursor: nat, cut: string, frame: string, events: seq<Event>)
  datatype LogRecord = LogRecord(rec: CutRecord, at: int)
  datatype Filter = Filter(classes: seq<EventClass>, names: seq<string>)
  datatype Retention = Retention(maxRecords: int, maxBytes: int, maxRecordBytes: int, age: int)
  datatype Reason = NoReason | RetentionExhausted | CancelledByOwner | ConnectionLost | SessionRevoked | AckOutOfRange
  datatype StreamState = Live | Expired | Cancelled
  datatype Stream = Stream(session: string, connection: nat, filter: Filter, credit: nat,
                           state: StreamState, reason: Reason, sent: nat, acked: nat, expiredAt: Option<int>)
  datatype Hub = Hub(retention: Retention, records: seq<LogRecord>, bytes: int, head: nat, nextID: nat,
                     streams: map<nat, Stream>)
  datatype WatchSpec = WatchSpec(session: string, connection: nat, filter: Filter, after: nat, credit: int)
  datatype WatchError = BadCredit | BadFilter | TooManyStreams | BeyondHead | BelowFloor
  datatype WatchReply = Watching(id: nat) | Refused(why: WatchError)
  datatype Status = Unknown | Known(state: StreamState, reason: Reason)
  datatype AckReply = AckReply(status: Status, sendable: bool)
  datatype DrainReply = DrainReply(recs: seq<CutRecord>, status: Status)

  // ----- records and filters -----

  function EventsSize(events: seq<Event>): nat {
    if events == [] then 0 else 48 + |events[0].name| + |events[0].payload| + EventsSize(events[1..])
  }

  function Size(rec: CutRecord): nat {
    64 + EventsSize(rec.events)
  }

  function TotalSize(records: seq<LogRecord>): nat {
    if records == [] then 0 else Size(records[0].rec) + TotalSize(records[1..])
  }

  predicate Matches(f: Filter, ev: Event) {
    && (f.classes == [] || ev.cls in f.classes)
    && (f.names == [] || ev.cls != StateChanged || ev.name in f.names)
  }

  predicate ValidFilter(f: Filter) {
    && (forall c <- f.classes :: !c.Unsupported?)
    && (forall i, j | 0 <= i < j < |f.classes| :: f.classes[i] != f.classes[j])
    && (forall n <- f.names :: n != "")
  }

  function Matched(f: Filter, events: seq<Event>): seq<Event> {
    if events == [] then []
    else (if Matches(f, events[0]) then [events[0]] else []) + Matched(f, events[1..])
  }

  function Pick(f: Filter, rec: CutRecord): CutRecord {
    rec.(events := Matched(f, rec.events))
  }

  predicate Selects(f: Filter, rec: CutRecord) {
    Matched(f, rec.events) != []
  }

  /** What a stream with this filter is owed for log positions lo..hi: matched events only, unmatched records skipped. */
  function Owed(f: Filter, log: seq<CutRecord>, lo: nat, hi: nat): seq<CutRecord>
    requires lo <= hi <= |log|
    decreases hi - lo
  {
    if lo == hi then []
    else (if Selects(f, log[lo]) then [Pick(f, log[lo])] else []) + Owed(f, log, lo + 1, hi)
  }

  /** The stored form of an appended record: cursor assigned, ordinals renumbered. */
  function Sealed(rec: CutRecord, cursor: nat): CutRecord {
    rec.(cursor := cursor, events := seq(|rec.events|, i requires 0 <= i < |rec.events| => rec.events[i].(ordinal := i)))
  }

  // ----- log -----

  predicate ValidRetention(r: Retention) {
    r.maxRecords > 0 && r.maxBytes > 0 && r.maxRecordBytes > 0 && r.age > 0 && r.maxRecordBytes <= r.maxBytes
  }

  function Floor(h: Hub): nat {
    if h.records == [] then 0 else h.records[0].rec.cursor
  }

  predicate Evictable(records: seq<LogRecord>, bytes: int, r: Retention, now: int)
    requires records != []
  {
    |records| > r.maxRecords || bytes > r.maxBytes || now - records[0].at >= r.age
  }

  function Evict(records: seq<LogRecord>, bytes: int, r: Retention, now: int): (seq<LogRecord>, int)
    decreases |records|
  {
    if records != [] && Evictable(records, bytes, r, now)
    then Evict(records[1..], bytes - Size(records[0].rec), r, now)
    else (records, bytes)
  }

  function ExpireBelow(s: Stream, floor: nat, now: int): Stream
    requires s.sent <= MAX64
  {
    if s.state == Live && floor != 0 && Inc64(s.sent) < floor
    then s.(state := Expired, reason := RetentionExhausted, expiredAt := Some(now))
    else s
  }

  predicate Bounded(h: Hub) {
    && h.head <= MAX64 && h.nextID <= MAX64
    && forall id <- h.streams :: h.streams[id].sent <= MAX64 && h.streams[id].acked <= MAX64 && h.streams[id].credit <= MAX64
  }

  function ExpireAll(streams: map<nat, Stream>, floor: nat, now: int): map<nat, Stream>
    requires forall id <- streams :: streams[id].sent <= MAX64
  {
    map id | id in streams :: ExpireBelow(streams[id], floor, now)
  }

  function AppendStep(h: Hub, rec: CutRecord, now: int): (Hub, bool)
    requires Bounded(h)
  {
    if Size(rec) > h.retention.maxRecordBytes then (h, false)
    else
      var head := Inc64(h.head);
      var stored := Sealed(rec, head);
      var (kept, bytes) := Evict(h.records + [LogRecord(stored, now)], h.bytes + Size(stored), h.retention, now);
      var floor := if kept == [] then 0 else kept[0].rec.cursor;
      (h.(records := kept, bytes := bytes, head := head,
          streams := ExpireAll(h.streams, floor, now)), true)
  }

  // ----- subscriptions -----

  function WatchStep(h: Hub, spec: WatchSpec): (Hub, WatchReply)
    requires Bounded(h) && spec.after <= MAX64
  {
    if spec.credit < 1 || spec.credit > 8 then (h, Refused(BadCredit))
    else if !ValidFilter(spec.filter) then (h, Refused(BadFilter))
    else if |h.streams| >= MAX_STREAMS then (h, Refused(TooManyStreams))
    else if spec.after > h.head then (h, Refused(BeyondHead))
    else if spec.after > 0 && Inc64(spec.after) < Floor(h) then (h, Refused(BelowFloor))
    else
      var id := Inc64(h.nextID);
      var s := Stream(spec.session, spec.connection, spec.filter, spec.credit, Live, NoReason, spec.after, spec.after, None);
      (h.(nextID := id, streams := h.streams[id := s]), Watching(id))
  }

  /** The uint64 credit the code computes; it wraps when more than `credit` cursors are unacknowledged. */
  function Available(s: Stream): nat
    requires s.sent <= MAX64 && s.acked <= MAX64 && s.credit <= MAX64
  {
    Sub64(s.credit, Sub64(s.sent, s.acked))
  }

  predicate MatchAfter(records: seq<LogRecord>, f: Filter, sent: nat) {
    exists i | 0 <= i < |records| :: records[i].rec.cursor > sent && Selects(f, records[i].rec)
  }

  predicate Sendable(h: Hub, s: Stream)
    requires s.sent <= MAX64
  {
    Inc64(s.sent) < Floor(h) || MatchAfter(h.records, s.filter, s.sent)
  }

  predicate Owns(h: Hub, id: nat, session: string, conn: nat) {
    id in h.streams && h.streams[id].session == session && h.streams[id].connection == conn
  }

  function StatusOf(s: Stream): Status {
    Known(s.state, s.reason)
  }

  function AckStep(h: Hub, id: nat, session: string, conn: nat, position: nat): (Hub, AckReply)
    requires Bounded(h) && position <= MAX64
  {
    if !Owns(h, id, session, conn) then (h, AckReply(Unknown, false))
    else
      var s := h.streams[id];
      if s.state != Live then (h, AckReply(StatusOf(s), false))
      else if position > s.sent || position < s.acked then (h, AckReply(Known(s.state, AckOutOfRange), false))
      else
        var s' := s.(acked := position);
        (h.(streams := h.streams[id := s']), AckReply(StatusOf(s'), Available(s') > 0 && Sendable(h, s')))
  }

  /** The delivery loop from record i on: the last cursor passed and the records handed out. */
  function Deliver(records: seq<LogRecord>, i: nat, f: Filter, sent: nat, credit: nat): (nat, seq<CutRecord>)
    requires i <= |records|
    decreases |records| - i
  {
    if i == |records| then (sent, [])
    else
      var rec := records[i].rec;
      if rec.cursor <= sent then Deliver(records, i + 1, f, sent, credit)
      else if credit == 0 then (sent, [])
      else if !Selects(f, rec) then Deliver(records, i + 1, f, rec.cursor, credit)
      else
        var rest := Deliver(records, i + 1, f, rec.cursor, credit - 1);
        (rest.0, [Pick(f, rec)] + rest.1)
  }

  function DrainStep(h: Hub, id: nat, session: string, conn: nat, now: int): (Hub, DrainReply)
    requires Bounded(h)
  {
    if !Owns(h, id, session, conn) then (h, DrainReply([], Unknown))
    else
      var s := h.streams[id];
      if s.state != Live then (h, DrainReply([], StatusOf(s)))
      else
        var s' := ExpireBelow(s, Floor(h), now);
        if s'.state != Live then (h.(streams := h.streams[id := s']), DrainReply([], StatusOf(s')))
        else
          var (last, recs) := Deliver(h.records, 0, s.filter, s.sent, Available(s));
          (h.(streams := h.streams[id := s.(sent := last)]), DrainReply(recs, StatusOf(s)))
  }

  function Cut(s: Stream, reason: Reason, now: int): Stream {
    if s.state == Live then s.(state := Cancelled, reason := reason, expiredAt := Some(now)) else s
  }

  function CancelStep(h: Hub, id: nat, now: int): (Hub, Status) {
    if id !in h.streams then (h, Unknown)
    else
      var s := Cut(h.streams[id], CancelledByOwner, now);
      (h.(streams := h.streams[id := s]), StatusOf(s))
  }

  function CloseConnectionStep(h: Hub, conn: nat, now: int): Hub {
    h.(streams := map id | id in h.streams ::
      if h.streams[id].connection == conn then Cut(h.streams[id], ConnectionLost, now) else h.streams[id])
  }

  function CloseSessionStep(h: Hub, session: string, now: int): Hub {
    h.(streams := map id | id in h.streams ::
      if h.streams[id].session == session then Cut(h.streams[id], SessionRevoked, now) else h.streams[id])
  }

  predicate Reclaimable(s: Stream, now: int) {
    s.state != Live && s.expiredAt.Some? && now - s.expiredAt.value > SWEEP_AGE
  }

  function SweepStep(h: Hub, now: int): Hub {
    h.(streams := map id | id in h.streams && !Reclaimable(h.streams[id], now) :: h.streams[id])
  }

  /** The streams a notification names after an append (drive/stream.go:641-682). */
  predicate Notified(h: Hub, id: nat)
    requires Bounded(h)
  {
    id in h.streams &&
    var s := h.streams[id];
    s.state == Live && s.credit > Sub64(s.sent, s.acked) && Sendable(h, s)
  }
}
