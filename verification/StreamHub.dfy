/**
 * The mutable hub of drive/stream.go: fields updated in place by loops over the log and the
 * stream map. Every method is proved to perform exactly one step of StreamModel, so every
 * result of StreamRuns applies to any sequence of calls. Each method body runs under the hub
 * lock in the original, so a call is one atomic step.
 */
module StreamHubs {
  import opened Machine
  import opened StreamModel

  class StreamHub {
    const retention: Retention
    var records: seq<LogRecord>
    var bytes: int
    var head: nat
    var nextID: nat
    var streams: map<nat, Stream>

    function View(): Hub
      reads this
    {
      Hub(retention, records, bytes, head, nextID, streams)
    }

    ghost predicate Ready()
      reads this
    {
      Bounded(View())
    }

    constructor (r: Retention)
      requires ValidRetention(r)
      ensures Ready() && View() == Hub(r, [], 0, 0, 0, map[])
    {
      retention, records, bytes, head, nextID, streams := r, [], 0, 0, 0, map[];
    }

    /** evictLocked: walk a drop index past every evictable record, then cut the slice once. */
    method EvictLocked(now: int)
      modifies this`records, this`bytes
      ensures (records, bytes) == Evict(old(records), old(bytes), retention, now)
    {
      var drop := 0;
      while drop < |records| && Evictable(records[drop..], bytes, retention, now)
        invariant 0 <= drop <= |records| && records == old(records)
        invariant Evict(old(records), old(bytes), retention, now) == Evict(records[drop..], bytes, retention, now)
        decreases |records| - drop
      {
        assert records[drop..][1..] == records[drop + 1..];
        bytes := bytes - Size(records[drop].rec);
        drop := drop + 1;
      }
      records := records[drop..];
    }

    /** expireBelowFloorLockedAll: visits the stream map in arbitrary order. */
    method ExpireBelowFloorAll(now: int) returns (expired: set<nat>)
      requires Ready()
      modifies this`streams
      ensures streams == ExpireAll(old(streams), Floor(old(View())), now)
      ensures forall id :: id in expired <==> id in old(streams) && old(streams)[id].state == Live && streams[id].state == Expired
    {
      expired := {};
      var floor := if records == [] then 0 else records[0].rec.cursor;
      var todo := streams.Keys;
      while todo != {}
        invariant streams.Keys == old(streams).Keys && todo <= streams.Keys
        invariant forall id <- todo :: streams[id] == old(streams)[id]
        invariant forall id | id in streams && id !in todo :: streams[id] == ExpireBelow(old(streams)[id], floor, now)
        invariant forall id :: id in expired <==> id in streams && id !in todo && old(streams)[id].state == Live && streams[id].state == Expired
      {
        var id :| id in todo;
        var s := ExpireBelow(streams[id], floor, now);
        if s != streams[id] { expired := expired + {id}; }
        streams := streams[id := s];
        todo := todo - {id};
      }
    }

    /** The scan shared by Ack and collectSendableLocked: is some record after `sent` matched? */
    method ScanForMatch(f: Filter, sent: nat) returns (found: bool)
      ensures found <==> MatchAfter(records, f, sent)
    {
      found := false;
      for i := 0 to |records|
        invariant !found && !MatchAfter(records[..i], f, sent)
      {
        var rec := records[i].rec;
        if rec.cursor > sent {
          var hit := AnyMatches(f, rec);
          if hit { return true; }
        }
        assert records[..i + 1] == records[..i] + [records[i]];
      }
      assert records[..|records|] == records;
    }

    method AnyMatches(f: Filter, rec: CutRecord) returns (hit: bool)
      ensures hit <==> Selects(f, rec)
    {
      hit := false;
      var i := 0;
      while i < |rec.events|
        invariant 0 <= i <= |rec.events|
        invariant Selects(f, rec) <==> Matched(f, rec.events[i..]) != []
      {
        if Matches(f, rec.events[i]) { return true; }
        assert rec.events[i..][1..] == rec.events[i + 1..];
        i := i + 1;
      }
    }

    /** collectSendableLocked: the streams a notification names. */
    method CollectSendable() returns (ready: set<nat>)
      requires Ready()
      ensures forall id :: id in ready <==> Notified(View(), id)
    {
      ready := {};
      var todo := streams.Keys;
      while todo != {}
        invariant todo <= streams.Keys
        invariant forall id :: id in ready <==> id !in todo && Notified(View(), id)
      {
        var id :| id in todo;
        var s := streams[id];
        if s.state == Live && s.credit > Sub64(s.sent, s.acked) {
          var found := true;
          if Inc64(s.sent) >= Floor(View()) {
            found := ScanForMatch(s.filter, s.sent);
          }
          if found { ready := ready + {id}; }
        }
        todo := todo - {id};
      }
    }

    method Append(rec: CutRecord, now: int) returns (ok: bool, ready: set<nat>, expired: set<nat>)
      requires Ready()
      modifies this
      ensures (View(), ok) == AppendStep(old(View()), rec, now)
      ensures ok ==> Ready() && forall id :: id in ready <==> Notified(View(), id)
      ensures forall id :: id in expired <==> ok && id in old(streams) && old(streams)[id].state == Live && id in streams && streams[id].state == Expired
    {
      if Size(rec) > retention.maxRecordBytes { return false, {}, {}; }
      head := Inc64(head);
      var stored := Sealed(rec, head);
      records := records + [LogRecord(stored, now)];
      bytes := bytes + Size(stored);
      EvictLocked(now);
      expired := ExpireBelowFloorAll(now);
      ready := CollectSendable();
      ok := true;
      ghost var h' := AppendStep(old(View()), rec, now).0;
      assert records == h'.records && bytes == h'.bytes && head == h'.head;
      assert streams == h'.streams;
    }

    method Watch(spec: WatchSpec) returns (reply: WatchReply)
      requires Ready() && spec.after <= MAX64
      modifies this
      ensures (View(), reply) == WatchStep(old(View()), spec)
    {
      if spec.credit < 1 || spec.credit > 8 { return Refused(BadCredit); }
      if !ValidFilter(spec.filter) { return Refused(BadFilter); }
      if |streams| >= MAX_STREAMS { return Refused(TooManyStreams); }
      if spec.after > head { return Refused(BeyondHead); }
      if spec.after > 0 && Inc64(spec.after) < Floor(View()) { return Refused(BelowFloor); }
      nextID := Inc64(nextID);
      streams := streams[nextID := Stream(spec.session, spec.connection, spec.filter, spec.credit, Live, NoReason, spec.after, spec.after, None)];
      reply := Watching(nextID);
    }

    /** The caller's own live stream, and a position between what it acknowledged and what it was sent. */
    predicate MayAck(id: nat, session: string, conn: nat, position: nat)
      reads this`streams
    {
      id in streams && streams[id].session == session && streams[id].connection == conn && streams[id].state == Live && streams[id].acked <= position <= streams[id].sent
    }

    method Ack(id: nat, session: string, conn: nat, position: nat) returns (reply: AckReply)
      requires Ready() && position <= MAX64
      modifies this`streams
      ensures (View(), reply) == AckStep(old(View()), id, session, conn, position)
      ensures old(MayAck(id, session, conn, position)) ==> streams == old(streams)[id := old(streams)[id].(acked := position)]
      ensures !old(MayAck(id, session, conn, position)) ==> streams == old(streams) && !reply.sendable
    {
      if id !in streams || streams[id].session != session || streams[id].connection != conn {
        return AckReply(Unknown, false);
      }
      var s := streams[id];
      if s.state != Live { return AckReply(StatusOf(s), false); }
      if position > s.sent || position < s.acked { return AckReply(Known(s.state, AckOutOfRange), false); }
      s := s.(acked := position);
      streams := streams[id := s];
      var sendable := false;
      if Sub64(s.credit, Sub64(s.sent, s.acked)) > 0 {
        if Inc64(s.sent) < Floor(View()) {
          sendable := true;
        } else {
          sendable := ScanForMatch(s.filter, s.sent);
        }
      }
      reply := AckReply(StatusOf(s), sendable);
    }

    static lemma MatchedStep(f: Filter, events: seq<Event>, i: nat, matched: seq<Event>)
      requires i < |events|
      ensures matched + Matched(f, events[i..]) == (if Matches(f, events[i]) then matched + [events[i]] else matched) + Matched(f, events[i + 1..])
    {
      assert events[i..][1..] == events[i + 1..];
    }

    method SelectEvents(f: Filter, events: seq<Event>) returns (matched: seq<Event>)
      ensures matched == Matched(f, events)
    {
      matched := [];
      var i := 0;
      while i < |events|
        invariant 0 <= i <= |events|
        invariant Matched(f, events) == matched + Matched(f, events[i..])
      {
        MatchedStep(f, events, i, matched);
        if Matches(f, events[i]) { matched := matched + [events[i]]; }
        i := i + 1;
      }
    }

    /** Drain: one forward pass over the log, moving `sent` and spending credit only on matches. */
    method Drain(id: nat, session: string, conn: nat, now: int) returns (reply: DrainReply)
      requires Ready()
      modifies this`streams
      ensures (View(), reply) == DrainStep(old(View()), id, session, conn, now)
    {
      if id !in streams || streams[id].session != session || streams[id].connection != conn {
        return DrainReply([], Unknown);
      }
      var s := streams[id];
      if s.state != Live { return DrainReply([], StatusOf(s)); }
      s := ExpireBelow(s, Floor(View()), now);
      if s.state != Live {
        streams := streams[id := s];
        return DrainReply([], StatusOf(s));
      }
      var last, recs := Collect(s.filter, s.sent, Sub64(s.credit, Sub64(s.sent, s.acked)));
      streams := streams[id := s.(sent := last)];
      reply := DrainReply(recs, StatusOf(s));
    }

    method Collect(f: Filter, sent: nat, window: nat) returns (last: nat, recs: seq<CutRecord>)
      ensures (last, recs) == Deliver(records, 0, f, sent, window)
    {
      last, recs := sent, [];
      var credit := window;
      var i := 0;
      ghost var all := Deliver(records, 0, f, sent, window);
      assert all.1 == [] + all.1;
      while i < |records|
        invariant 0 <= i <= |records|
        invariant all.0 == Deliver(records, i, f, last, credit).0
        invariant all.1 == recs + Deliver(records, i, f, last, credit).1
      {
        var rec := records[i].rec;
        if rec.cursor > last {
          if credit == 0 { break; }
          var matched := SelectEvents(f, rec.events);
          last := rec.cursor;
          if matched != [] {
            recs := recs + [rec.(events := matched)];
            credit := credit - 1;
          }
        }
        i := i + 1;
      }
      assert recs + [] == recs;
    }

    method Cancel(id: nat, now: int) returns (status: Status)
      modifies this`streams
      ensures (View(), status) == CancelStep(old(View()), id, now)
    {
      if id !in streams { return Unknown; }
      streams := streams[id := Cut(streams[id], CancelledByOwner, now)];
      status := StatusOf(streams[id]);
    }

    method CloseConnection(conn: nat, now: int)
      modifies this`streams
      ensures View() == CloseConnectionStep(old(View()), conn, now)
    {
      var todo := streams.Keys;
      while todo != {}
        invariant streams.Keys == old(streams).Keys && todo <= streams.Keys
        invariant forall id <- todo :: streams[id] == old(streams)[id]
        invariant forall id | id in streams && id !in todo :: streams[id] == CloseConnectionStep(old(View()), conn, now).streams[id]
      {
        var id :| id in todo;
        if streams[id].connection == conn {
          streams := streams[id := Cut(streams[id], ConnectionLost, now)];
        }
        todo := todo - {id};
      }
    }

    method CloseSession(session: string, now: int)
      modifies this`streams
      ensures View() == CloseSessionStep(old(View()), session, now)
    {
      var todo := streams.Keys;
      while todo != {}
        invariant streams.Keys == old(streams).Keys && todo <= streams.Keys
        invariant forall id <- todo :: streams[id] == old(streams)[id]
        invariant forall id | id in streams && id !in todo :: streams[id] == CloseSessionStep(old(View()), session, now).streams[id]
      {
        var id :| id in todo;
        if streams[id].session == session {
          streams := streams[id := Cut(streams[id], SessionRevoked, now)];
        }
        todo := todo - {id};
      }
    }

    method Sweep(now: int) returns (n: nat)
      modifies this`streams
      ensures View() == SweepStep(old(View()), now)
      ensures n == |old(streams)| - |streams|
    {
      n := 0;
      var todo := streams.Keys;
      while todo != {}
        invariant todo <= streams.Keys <= old(streams).Keys && n == |old(streams)| - |streams|
        invariant forall id <- streams :: streams[id] == old(streams)[id]
        invariant forall id | id in old(streams) && id !in todo :: id in streams <==> !Reclaimable(old(streams)[id], now)
      {
        var id :| id in todo;
        if Reclaimable(streams[id], now) {
          assert (streams - {id}).Keys == streams.Keys - {id};
          streams := streams - {id};
          n := n + 1;
        }
        todo := todo - {id};
      }
    }
  }
}
