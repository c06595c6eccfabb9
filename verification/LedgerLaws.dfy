/**
 * What each ledger operation of drive/ledger.go leaves behind, written on the fields a later lookup reports:
 * which outcome a retried request is answered with, and which outcomes retention may give up.
 */
module LedgerLaws {
  import opened Machine
  import opened LedgerModel

  /** Who issued the request and how it was accepted; no completion changes these. */
  ghost predicate SameRequest(e': Entry, e: Entry) {
    && e'.id == e.id && e'.opID == e.opID && e'.canonical == e.canonical && e'.admitted == e.admitted
    && e'.acceptedCut == e.acceptedCut && e'.acceptedFrame == e.acceptedFrame
  }

  /** The replacement is what the identifier reports from now on, unless it is given up at once. */
  lemma CompleteReports(l: Ledger, k: nat, e': Entry)
    requires Inv(l) && k < |l.entries| && e'.id == l.entries[k].id && e'.terminal
    ensures Lookup(Complete(l, k, e'), e'.id) == Retained(e') || Lookup(Complete(l, k, e'), e'.id) == Expired
  {
    var l' := Complete(l, k, e');
    CompleteKeepsInv(l, k, e');
    LookupPartitions(l', e'.id);
    forall o <- l'.entries | o.id == e'.id ensures o == e' {
      assert o in l.entries[k := e'];
    }
  }

  /** A result for an active request is reported with exactly its payload, cut and frame and no error. */
  lemma ResultMeaning(l: Ledger, id: nat, payload: string, cut: string, frame: string, e: Entry)
    requires Inv(l) && Lookup(l, id) == Retained(e) && !e.terminal
    ensures
      var d := Lookup(Apply(l, Result(id, payload, cut, frame)), id);
      d == Expired || (d.Retained? && SameRequest(d.entry, e) && d.entry.terminal && d.entry.payload == payload && d.entry.err == None && d.entry.resultCut == cut && d.entry.resultFrame == frame)
  {
    var k := Find(l.entries, id, 0);
    CompleteReports(l, k, Finished(e, payload, cut, frame));
  }

  /** An error for an active request is reported with exactly that error and the fields it had. */
  lemma ErrorMeaning(l: Ledger, id: nat, err: string, e: Entry)
    requires Inv(l) && Lookup(l, id) == Retained(e) && !e.terminal
    ensures
      var d := Lookup(Apply(l, Error(id, err)), id);
      d == Expired || (d.Retained? && SameRequest(d.entry, e) && d.entry.terminal && d.entry.err == Some(err) && d.entry.payload == "" && d.entry.resultCut == e.resultCut && d.entry.resultFrame == e.resultFrame)
  {
    var k := Find(l.entries, id, 0);
    CompleteReports(l, k, Failed(e, err));
    assert e in l.entries;
  }

  /** Accepting an active request records its cut and frame and leaves it active; every other entry stays. */
  lemma AcceptMeaning(l: Ledger, id: nat, cut: string, frame: string, e: Entry)
    requires Inv(l) && Lookup(l, id) == Retained(e) && !e.terminal
    ensures
      var d := Lookup(Apply(l, Accept(id, cut, frame)), id);
      && d.Retained? && !d.entry.terminal && d.entry.acceptedCut == cut && d.entry.acceptedFrame == frame
      && d.entry.id == e.id && d.entry.opID == e.opID && d.entry.canonical == e.canonical && d.entry.admitted == e.admitted
      && d.entry.payload == e.payload && d.entry.err == e.err && d.entry.resultCut == e.resultCut && d.entry.resultFrame == e.resultFrame
    ensures forall other: nat | other != id :: Lookup(Apply(l, Accept(id, cut, frame)), other) == Lookup(l, other)
  {
    var k := Find(l.entries, id, 0);
    var e' := e.(acceptedCut := cut, acceptedFrame := frame);
    var l' := Apply(l, Accept(id, cut, frame));
    Replaced(l.entries, l.highWater, k, e');
    assert e in l.entries && l'.entries[k] == e';
    FindUnique(l'.entries, l'.highWater, e');
    forall other: nat | other != id ensures Lookup(l', other) == Lookup(l, other) {
      SameElsewhere(l, l', k, other);
    }
  }

  lemma SameElsewhere(l: Ledger, l': Ledger, k: nat, id: nat)
    requires Inv(l) && Inv(l') && l'.highWater == l.highWater && k < |l.entries| && |l'.entries| == |l.entries|
    requires l'.entries[k].id == l.entries[k].id != id && forall i | 0 <= i < |l.entries| && i != k :: l'.entries[i] == l.entries[i]
    ensures Lookup(l', id) == Lookup(l, id)
  {
    var a, b := Find(l.entries, id, 0), Find(l'.entries, id, 0);
    assert a == b;
  }

  /** The next identifier is admitted as an active request with nothing recorded yet. */
  lemma ClaimMeaning(l: Ledger, canonical: string, opID: string)
    requires Inv(l) && l.highWater < MAX64
    ensures
      var l' := Apply(l, Claim(l.highWater + 1, canonical, opID));
      var d := Lookup(l', l.highWater + 1);
      && l'.highWater == l.highWater + 1
      && d.Retained? && !d.entry.terminal && d.entry.admitted && d.entry.id == l.highWater + 1 && d.entry.canonical == canonical && d.entry.opID == opID
      && d.entry.payload == "" && d.entry.err == None && d.entry.acceptedCut == "" && d.entry.acceptedFrame == "" && d.entry.resultCut == "" && d.entry.resultFrame == ""
  {
    var e := NewClaim(l.highWater + 1, canonical, opID);
    AdmitKeepsInv(l, e);
    assert e in l.entries + [e];
    FindUnique(Admit(l, e).entries, e.id, e);
  }

  /** A rejection consumes the next identifier and is reported as that error, never as admitted. */
  lemma RejectMeaning(l: Ledger, canonical: string, err: string)
    requires Inv(l) && l.highWater < MAX64
    ensures
      var l' := Apply(l, Reject(l.highWater + 1, canonical, err));
      var d := Lookup(l', l.highWater + 1);
      && l'.highWater == l.highWater + 1
      && (d == Expired || (d.Retained? && d.entry.terminal && !d.entry.admitted && d.entry.canonical == canonical && d.entry.err == Some(err) && d.entry.payload == "" && d.entry.opID == ""))
  {
    var e := NewRejection(l.highWater + 1, canonical, err);
    var l' := Admit(l, e);
    AdmitKeepsInv(l, e);
    LookupPartitions(l', e.id);
    forall o <- l'.entries | o.id == e.id ensures o == e {
      assert o in l.entries + [e];
    }
  }

  /**
   * An operation out of place changes nothing: an admission of any other identifier, or a completion or acceptance
   * of a request that is unknown, expired or already completed.
   */
  lemma OutOfPlaceIgnored(l: Ledger, op: Op)
    requires Inv(l) && l.highWater < MAX64
    requires (op.Claim? || op.Reject?) ==> op.id != l.highWater + 1
    requires !(op.Claim? || op.Reject?) ==> forall e :: Lookup(l, op.id) == Retained(e) ==> e.terminal
    ensures Apply(l, op) == l
  {
    if !(op.Claim? || op.Reject?) {
      LookupPartitions(l, op.id);
      var k := Find(l.entries, op.id, 0);
      if k < |l.entries| {
        assert Lookup(l, op.id) == Retained(l.entries[k]);
      }
    }
  }

  /** A result keeps being reported, exactly as given, through every later run until it expires. */
  lemma ResultIsReplayed(l: Ledger, id: nat, payload: string, cut: string, frame: string, e: Entry, later: seq<Op>)
    requires Inv(l) && l.highWater + |later| + 1 <= MAX64 && Lookup(l, id) == Retained(e) && !e.terminal
    ensures Inv(Apply(l, Result(id, payload, cut, frame))) && Apply(l, Result(id, payload, cut, frame)).highWater == l.highWater
    ensures
      var d := Lookup(Run(Apply(l, Result(id, payload, cut, frame)), later).0, id);
      d == Expired || (d.Retained? && SameRequest(d.entry, e) && d.entry.payload == payload && d.entry.err == None && d.entry.resultCut == cut && d.entry.resultFrame == frame)
  {
    var done := Apply(l, Result(id, payload, cut, frame));
    ApplyKeepsInv(l, Result(id, payload, cut, frame));
    ResultMeaning(l, id, payload, cut, frame, e);
    var d := Lookup(done, id);
    if d == Expired {
      ExpiredForever(done, later, id);
    } else {
      OutcomeNeverChanges(done, later, d.entry);
    }
  }

  // ----- retention -----

  /** A list within 1024 entries and four mebibytes keeps everything. */
  lemma WithinBoundsKeepsAll(entries: seq<Entry>, bytes: nat)
    requires |entries| <= 1024 && bytes <= 4_194_304 && (entries == [] ==> bytes == 0)
    ensures Evict(entries, bytes) == (entries, bytes)
  {}

  /** Otherwise eviction ends within both bounds, or with active entries alone. */
  lemma EvictsIntoBounds(entries: seq<Entry>)
    ensures
      var (kept, left) := Evict(entries, Cost(entries));
      (|kept| <= 1024 && left <= 4_194_304) || forall i | 0 <= i < |kept| :: !kept[i].terminal
  {
    var n := EvictIsFifo(entries);
  }

  lemma FirstIsOldest(entries: seq<Entry>, highWater: nat, k: nat, left: Entry)
    requires Ordered(entries, highWater) && k == FirstTerminal(entries, 0) < |entries|
    requires left in Without(entries, k) && left.terminal
    ensures entries[k].id < left.id
  {
    var rest := Without(entries, k);
    var j :| 0 <= j < |rest| && rest[j] == left;
    assert !(j < k);
  }

  lemma StillThere(entries: seq<Entry>, k: nat, e: Entry)
    requires k < |entries| && e in entries && e != entries[k]
    ensures e in Without(entries, k)
  {
    var i :| 0 <= i < |entries| && entries[i] == e;
    assert Without(entries, k)[if i < k then i else i - 1] == e;
  }

  /** Every entry given up is terminal, and every terminal entry left was admitted after it. */
  lemma {:induction false} OldestFirst(entries: seq<Entry>, bytes: int, highWater: nat, lost: Entry, left: Entry)
    requires Ordered(entries, highWater) && lost in entries && lost !in Evict(entries, bytes).0
    requires left in Evict(entries, bytes).0 && left.terminal
    ensures lost.terminal && lost.id < left.id
    decreases |entries|
  {
    var k := FirstTerminal(entries, 0);
    var rest, less := Without(entries, k), bytes - EntryCost(entries[k]);
    assert Evict(entries, bytes) == Evict(rest, less);
    WithoutSurvives(entries, k, highWater);
    EvictKeeps(rest, less, highWater);
    if lost == entries[k] {
      FirstIsOldest(entries, highWater, k, left);
    } else {
      StillThere(entries, k, lost);
      OldestFirst(rest, less, highWater, lost, left);
    }
  }

  /** The accounted size is 256 bytes an entry plus every payload. */
  lemma {:induction false} CostMeaning(entries: seq<Entry>)
    ensures Cost([]) == 0
    ensures forall e :: Cost(entries + [e]) == Cost(entries) + 256 + |e.payload|
  {
    forall e ensures Cost(entries + [e]) == Cost(entries) + 256 + |e.payload| {
      CostPrefix(entries + [e], entries, |entries|);
    }
  }
}
