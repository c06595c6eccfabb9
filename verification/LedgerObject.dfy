/**
 * The mutable ledger of drive/ledger.go: entries are shared objects that callers keep pointers to,
 * and completion goes through such a pointer. Each method performs one step of LedgerModel; a
 * pointer to an evicted entry (or one of another ledger) changes nothing.
 */
module Ledgers {
  import opened Machine
  import opened LedgerModel

  class LedgerEntry {
    const id: nat
    const opID: string
    const canonical: string
    const admitted: bool
    var terminal: bool
    var payload: string
    var err: Option<string>
    var acceptedCut: string
    var acceptedFrame: string
    var resultCut: string
    var resultFrame: string

    constructor (v: Entry)
      ensures Value() == v
    {
      id, opID, canonical, admitted := v.id, v.opID, v.canonical, v.admitted;
      terminal, payload, err := v.terminal, v.payload, v.err;
      acceptedCut, acceptedFrame, resultCut, resultFrame := v.acceptedCut, v.acceptedFrame, v.resultCut, v.resultFrame;
    }

    method Write(v: Entry)
      requires v.id == id && v.opID == opID && v.canonical == canonical && v.admitted == admitted
      modifies this
      ensures Value() == v
    {
      terminal, payload, err := v.terminal, v.payload, v.err;
      acceptedCut, acceptedFrame, resultCut, resultFrame := v.acceptedCut, v.acceptedFrame, v.resultCut, v.resultFrame;
    }

    function Value(): Entry
      reads this
    {
      Entry(id, opID, canonical, terminal, admitted, payload, err, acceptedCut, acceptedFrame, resultCut, resultFrame)
    }
  }

  /** One round of eviction: the first terminal entry goes, or there is none and eviction stops. */
  lemma EvictUnfolds(entries: seq<Entry>, bytes: int, k: nat)
    requires entries != [] && Over(entries, bytes) && k == FirstTerminal(entries, 0)
    ensures k == |entries| ==> Evict(entries, bytes) == (entries, bytes)
    ensures k < |entries| ==> Evict(entries, bytes) == Evict(Without(entries, k), bytes - EntryCost(entries[k]))
  {}

  class OutcomeLedger {
    var highWater: nat
    var entries: seq<LedgerEntry>
    var bytes: int

    constructor ()
      ensures Valid() && View() == EMPTY
    {
      highWater, entries, bytes := 0, [], 0;
    }

    static function ValuesOf(held: seq<LedgerEntry>): (vs: seq<Entry>)
      reads held
      ensures |vs| == |held| && forall i | 0 <= i < |vs| :: vs[i] == held[i].Value()
    {
      seq(|held|, i requires 0 <= i < |held| reads held => held[i].Value())
    }

    function Values(): seq<Entry>
      reads this`entries, entries
    {
      ValuesOf(entries)
    }

    function View(): Ledger
      reads this, entries
    {
      Ledger(highWater, Values(), bytes)
    }

    ghost predicate Valid()
      reads this, entries
    {
      Inv(View())
    }

    method FindTerminal() returns (k: nat)
      ensures k == FirstTerminal(Values(), 0)
    {
      k := 0;
      while k < |entries| && !entries[k].terminal
        invariant 0 <= k <= |entries|
        invariant FirstTerminal(Values(), 0) == FirstTerminal(Values(), k)
      {
        k := k + 1;
      }
    }

    /** Close the gap left by entry k and give its bytes back. */
    method Remove(k: nat)
      requires k < |entries|
      modifies this`entries, this`bytes
      ensures entries == old(entries[..k] + entries[k + 1..])
      ensures Values() == Without(old(Values()), k) && bytes == old(bytes) - EntryCost(old(Values()[k]))
    {
      var old' := entries[k];
      entries := entries[..k] + entries[k + 1..];
      bytes := bytes - (OVERHEAD + |old'.payload|);
      assert Values() == Without(old(Values()), k);
    }

    /** One round of the eviction loop: remove the first terminal entry, or report that there is none. */
    method EvictOnce(ghost end: (seq<Entry>, int)) returns (stuck: bool)
      requires entries != [] && Over(Values(), bytes) && Evict(Values(), bytes) == end
      modifies this`entries, this`bytes
      ensures stuck ==> entries != [] && (Values(), bytes) == end
      ensures !stuck ==> |entries| < |old(entries)| && Evict(Values(), bytes) == end
    {
      var k := FindTerminal();
      EvictUnfolds(Values(), bytes, k);
      stuck := k == |entries|;
      if !stuck { Remove(k); }
    }

    /** evictLocked: repeatedly find the first terminal entry and remove it. */
    method EvictLocked()
      modifies this`entries, this`bytes
      ensures (Values(), bytes) == Evict(old(Values()), old(bytes))
    {
      ghost var end := Evict(Values(), bytes);
      var stuck := false;
      while !stuck && |entries| > 0 && (|entries| > MAX_ENTRIES || bytes > MAX_BYTES)
        invariant if stuck then entries != [] && (Values(), bytes) == end else Evict(Values(), bytes) == end
        decreases !stuck, |entries|
      {
        stuck := EvictOnce(end);
      }
      if |entries| == 0 { bytes := 0; }
    }

    method Lookup(id: nat) returns (d: Disposition, found: LedgerEntry?)
      ensures d == LedgerModel.Lookup(View(), id)
      ensures d.Retained? <==> found != null
      ensures found != null ==> found in entries && d == Retained(found.Value())
    {
      if id > highWater { return Unknown, null; }
      found := FindLocked(id);
      if found == null { return Expired, null; }
      d := Retained(found.Value());
    }

    method FindLocked(id: nat) returns (found: LedgerEntry?)
      ensures
        var k := Find(Values(), id, 0);
        if k < |entries| then found == entries[k] else found == null
    {
      var i := 0;
      while i < |entries|
        invariant 0 <= i <= |entries|
        invariant Find(Values(), id, 0) == Find(Values(), id, i)
      {
        if entries[i].id == id { return entries[i]; }
        i := i + 1;
      }
      found := null;
    }

    method Claim(id: nat, canonical: string, opID: string) returns (e: LedgerEntry?)
      requires Valid()
      modifies this
      ensures View() == Apply(old(View()), LedgerModel.Claim(id, canonical, opID))
      ensures e == null <==> !Admits(old(View()), LedgerModel.Claim(id, canonical, opID))
      ensures e != null ==> fresh(e) && e.Value() == NewClaim(id, canonical, opID)
      ensures old(highWater) < MAX64 ==> Valid()
    {
      if id != Inc64(highWater) { return null; }
      e := new LedgerEntry(NewClaim(id, canonical, opID));
      Admitted(e);
      if old(highWater) < MAX64 { ApplyKeepsInv(old(View()), LedgerModel.Claim(id, canonical, opID)); }
    }

    method ClaimRejection(id: nat, canonical: string, err: string) returns (e: LedgerEntry?)
      requires Valid()
      modifies this
      ensures View() == Apply(old(View()), Reject(id, canonical, err))
      ensures e == null <==> !Admits(old(View()), Reject(id, canonical, err))
      ensures e != null ==> fresh(e) && e.Value() == NewRejection(id, canonical, err)
      ensures old(highWater) < MAX64 ==> Valid()
    {
      if id != Inc64(highWater) { return null; }
      e := new LedgerEntry(NewRejection(id, canonical, err));
      Admitted(e);
      if old(highWater) < MAX64 { ApplyKeepsInv(old(View()), Reject(id, canonical, err)); }
    }

    method Admitted(e: LedgerEntry)
      modifies this
      ensures View() == Admit(old(View()), e.Value())
    {
      ghost var before := Values();
      highWater := e.id;
      entries := entries + [e];
      bytes := bytes + OVERHEAD;
      assert Values() == before + [e.Value()];
      EvictLocked();
    }

    /** The pointer check of the completion methods: the entry is still the one held under its identifier. */
    lemma HeldIsFound(e: LedgerEntry)
      requires Valid()
      ensures e in entries ==> Find(Values(), e.id, 0) < |entries| && entries[Find(Values(), e.id, 0)] == e
    {
      if e in entries {
        var i :| 0 <= i < |entries| && entries[i] == e;
        var k := Find(Values(), e.id, 0);
        assert Values()[i].id == e.id;
      }
    }

    lemma Distinct()
      requires Valid()
      ensures forall i, j | 0 <= i < j < |entries| :: entries[i] != entries[j]
      ensures forall e <- entries :: !e.terminal ==> e.payload == ""
    {
      forall i, j | 0 <= i < j < |entries| ensures entries[i] != entries[j] {
        assert Values()[i].id < Values()[j].id;
      }
      forall i | 0 <= i < |entries| && !entries[i].terminal ensures entries[i].payload == "" {
        assert !Values()[i].terminal;
      }
    }

    /** Write a held entry through its pointer; every other held entry keeps its value. */
    method Overwrite(e: LedgerEntry, v: Entry, ghost k: nat)
      requires k < |entries| && entries[k] == e && forall i, j | 0 <= i < j < |entries| :: entries[i] != entries[j]
      requires v.id == e.id && v.opID == e.opID && v.canonical == e.canonical && v.admitted == e.admitted
      modifies e
      ensures Values() == old(Values())[k := v]
    {
      e.Write(v);
      assert Values() == old(Values())[k := v];
    }

    method Finish(e: LedgerEntry, v: Entry, ghost k: nat)
      requires k < |entries| && entries[k] == e && forall i, j | 0 <= i < j < |entries| :: entries[i] != entries[j]
      requires v.id == e.id && v.opID == e.opID && v.canonical == e.canonical && v.admitted == e.admitted
      requires e.payload == ""
      modifies this, e
      ensures View() == Complete(old(View()), k, v) && e.Value() == v
    {
      Overwrite(e, v, k);
      bytes := bytes + |v.payload|;
      EvictLocked();
    }

    /** Is this pointer the one held under its identifier, and still active? */
    method HoldsActive(e: LedgerEntry) returns (ok: bool, ghost k: nat)
      requires Valid()
      ensures k == Find(Values(), e.id, 0)
      ensures ok <==> e in entries && !e.terminal
      ensures e in entries ==> k < |entries| && entries[k] == e
      ensures k < |entries| ==> Values()[k] == entries[k].Value()
      ensures ok ==> e.payload == "" && forall i, j | 0 <= i < j < |entries| :: entries[i] != entries[j]
    {
      k := Find(Values(), e.id, 0);
      HeldIsFound(e);
      Distinct();
      var held := FindLocked(e.id);
      ok := !e.terminal && held == e;
    }

    method CompleteResult(e: LedgerEntry, payload: string, cut: string, frame: string)
      requires Valid()
      modifies this, e
      ensures old(e in entries) ==> View() == Apply(old(View()), Result(e.id, payload, cut, frame))
      ensures old(e in entries && !e.terminal) ==> e.terminal && e.payload == payload && e.err == None && e.resultCut == cut && e.resultFrame == frame
      ensures old(e.terminal) ==> e.Value() == old(e.Value())
      ensures old(e !in entries) ==> View() == old(View()) && e.Value() == old(e.Value())
      ensures old(highWater) < MAX64 ==> Valid()
    {
      var ok, k := HoldsActive(e);
      ghost var l := View();
      assert e in entries ==> l.entries[k] == e.Value() && Apply(l, Result(e.id, payload, cut, frame)) == if ok then Complete(l, k, Finished(e.Value(), payload, cut, frame)) else l;
      if ok { Finish(e, Finished(e.Value(), payload, cut, frame), k); }
      if l.highWater < MAX64 { ApplyKeepsInv(l, Result(e.id, payload, cut, frame)); }
    }

    method CompleteError(e: LedgerEntry, err: string)
      requires Valid()
      modifies this, e
      ensures old(e in entries) ==> View() == Apply(old(View()), Error(e.id, err))
      ensures old(e in entries && !e.terminal) ==> e.terminal && e.err == Some(err) && e.payload == old(e.payload)
      ensures old(e.terminal) ==> e.Value() == old(e.Value())
      ensures old(e !in entries) ==> View() == old(View()) && e.Value() == old(e.Value())
      ensures old(highWater) < MAX64 ==> Valid()
    {
      var ok, k := HoldsActive(e);
      ghost var l := View();
      assert e in entries ==> l.entries[k] == e.Value() && Apply(l, Error(e.id, err)) == if ok then Complete(l, k, Failed(e.Value(), err)) else l;
      if ok { Finish(e, Failed(e.Value(), err), k); }
      if l.highWater < MAX64 { ApplyKeepsInv(l, Error(e.id, err)); }
    }

    method MarkAccepted(e: LedgerEntry, cut: string, frame: string)
      requires Valid()
      modifies e
      ensures old(e in entries) ==> View() == Apply(old(View()), Accept(e.id, cut, frame))
      ensures old(e !in entries) ==> View() == old(View()) && e.Value() == old(e.Value())
    {
      var ok, k := HoldsActive(e);
      if ok { Overwrite(e, e.Value().(acceptedCut := cut, acceptedFrame := frame), k); }
    }
  }
}
