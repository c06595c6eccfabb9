/**
 * The at-most-once outcome ledger of drive/ledger.go as a value, a step function per
 * operation, and its whole-run guarantees. Canonical digests and errors are opaque strings.
 */
module LedgerModel {
  import opened Machine

  const MAX_ENTRIES := 1024
  const MAX_BYTES := 0x40_0000
  const OVERHEAD := 256

  datatype Entry = Entry(id: nat, opID: string, canonical: string, terminal: bool, admitted: bool,
                         payload: string, err: Option<string>,
                         acceptedCut: string, acceptedFrame: string, resultCut: string, resultFrame: string)
  datatype Ledger = Ledger(highWater: nat, entries: seq<Entry>, bytes: int)
  datatype Disposition = Unknown | Retained(entry: Entry) | Expired

  // ----- retention -----

  function EntryCost(e: Entry): nat {
    OVERHEAD + |e.payload|
  }

  function CostTo(entries: seq<Entry>, n: nat): nat
    requires n <= |entries|
  {
    if n == 0 then 0 else CostTo(entries, n - 1) + EntryCost(entries[n - 1])
  }

  /** The bytes accounted for a list of entries: a fixed overhead plus the payload of each. */
  function Cost(entries: seq<Entry>): nat {
    CostTo(entries, |entries|)
  }

  /** Index of the first terminal entry at or after i, or |entries|. */
  function FirstTerminal(entries: seq<Entry>, i: nat): (k: nat)
    requires i <= |entries|
    ensures i <= k <= |entries|
    ensures k < |entries| ==> entries[k].terminal
    ensures forall j | i <= j < k :: !entries[j].terminal
    decreases |entries| - i
  {
    if i == |entries| || entries[i].terminal then i else FirstTerminal(entries, i + 1)
  }

  function Without(entries: seq<Entry>, k: nat): (r: seq<Entry>)
    requires k < |entries|
    ensures |r| == |entries| - 1
    ensures forall i | 0 <= i < |r| :: r[i] == entries[if i < k then i else i + 1]
  {
    seq(|entries| - 1, i requires 0 <= i < |entries| - 1 => entries[if i < k then i else i + 1])
  }

  predicate Over(entries: seq<Entry>, bytes: int) {
    |entries| > MAX_ENTRIES || bytes > MAX_BYTES
  }

  function Evict(entries: seq<Entry>, bytes: int): (seq<Entry>, int)
    decreases |entries|
  {
    if entries == [] then (entries, 0)
    else
      var k := FirstTerminal(entries, 0);
      if !Over(entries, bytes) || k == |entries| then (entries, bytes)
      else Evict(Without(entries, k), bytes - EntryCost(entries[k]))
  }

  // ----- operations -----

  function Find(entries: seq<Entry>, id: nat, i: nat): (k: nat)
    requires i <= |entries|
    ensures i <= k <= |entries|
    ensures k < |entries| ==> entries[k].id == id
    ensures forall j | i <= j < k :: entries[j].id != id
    decreases |entries| - i
  {
    if i == |entries| || entries[i].id == id then i else Find(entries, id, i + 1)
  }

  function Lookup(l: Ledger, id: nat): Disposition {
    if id > l.highWater then Unknown
    else
      var k := Find(l.entries, id, 0);
      if k < |l.entries| then Retained(l.entries[k]) else Expired
  }

  function Admit(l: Ledger, e: Entry): Ledger {
    var kept := Evict(l.entries + [e], l.bytes + OVERHEAD);
    Ledger(e.id, kept.0, kept.1)
  }

  function NewClaim(id: nat, canonical: string, opID: string): Entry {
    Entry(id, opID, canonical, false, true, "", None, "", "", "", "")
  }

  function NewRejection(id: nat, canonical: string, err: string): Entry {
    Entry(id, "", canonical, true, false, "", Some(err), "", "", "", "")
  }

  function Finished(e: Entry, payload: string, cut: string, frame: string): Entry {
    e.(terminal := true, payload := payload, err := None, resultCut := cut, resultFrame := frame)
  }

  function Failed(e: Entry, err: string): Entry {
    e.(terminal := true, err := Some(err))
  }

  /** Complete the retained, still active entry `id` with `e'`; anything else is ignored. */
  function Complete(l: Ledger, k: nat, e': Entry): Ledger
    requires k < |l.entries|
  {
    var kept := Evict(l.entries[k := e'], l.bytes + |e'.payload| - |l.entries[k].payload|);
    l.(entries := kept.0, bytes := kept.1)
  }

  datatype Op =
    | Claim(id: nat, canonical: string, opID: string)
    | Reject(id: nat, canonical: string, err: string)
    | Result(id: nat, payload: string, cut: string, frame: string)
    | Error(id: nat, err: string)
    | Accept(id: nat, cut: string, frame: string)

  predicate Admits(l: Ledger, op: Op)
    requires l.highWater <= MAX64
  {
    (op.Claim? || op.Reject?) && op.id == Inc64(l.highWater)
  }

  function Apply(l: Ledger, op: Op): Ledger
    requires l.highWater <= MAX64
  {
    match op
    case Claim(id, canonical, opID) => if id == Inc64(l.highWater) then Admit(l, NewClaim(id, canonical, opID)) else l
    case Reject(id, canonical, err) => if id == Inc64(l.highWater) then Admit(l, NewRejection(id, canonical, err)) else l
    case Result(id, payload, cut, frame) =>
      var k := Find(l.entries, id, 0);
      if k < |l.entries| && !l.entries[k].terminal then Complete(l, k, Finished(l.entries[k], payload, cut, frame)) else l
    case Error(id, err) =>
      var k := Find(l.entries, id, 0);
      if k < |l.entries| && !l.entries[k].terminal then Complete(l, k, Failed(l.entries[k], err)) else l
    case Accept(id, cut, frame) =>
      var k := Find(l.entries, id, 0);
      if k < |l.entries| && !l.entries[k].terminal
      then l.(entries := l.entries[k := l.entries[k].(acceptedCut := cut, acceptedFrame := frame)]) else l
  }

  // ----- invariant -----

  ghost predicate Ordered(entries: seq<Entry>, highWater: nat) {
    && (forall i | 0 <= i < |entries| :: 1 <= entries[i].id <= highWater)
    && (forall i, j | 0 <= i < j < |entries| :: entries[i].id < entries[j].id)
  }

  /** An active entry carries no payload yet. */
  ghost predicate ActiveEmpty(entries: seq<Entry>) {
    forall i | 0 <= i < |entries| :: !entries[i].terminal ==> entries[i].payload == ""
  }

  ghost predicate Inv(l: Ledger) {
    && l.highWater <= MAX64
    && Ordered(l.entries, l.highWater)
    && ActiveEmpty(l.entries)
    && l.bytes == Cost(l.entries)
  }

  /** Within both bounds, or nothing terminal is left to give up. */
  ghost predicate Settled(entries: seq<Entry>, bytes: int) {
    !Over(entries, bytes) || forall i | 0 <= i < |entries| :: !entries[i].terminal
  }

  // ----- cost -----

  lemma {:induction false} CostPrefix(a: seq<Entry>, b: seq<Entry>, n: nat)
    requires n <= |a| && n <= |b| && forall i | 0 <= i < n :: a[i] == b[i]
    ensures CostTo(a, n) == CostTo(b, n)
  {
    if n > 0 {
      CostPrefix(a, b, n - 1);
    }
  }

  lemma {:induction false} CostWithoutTo(entries: seq<Entry>, k: nat, n: nat)
    requires k < n <= |entries|
    ensures CostTo(Without(entries, k), n - 1) == CostTo(entries, n) - EntryCost(entries[k])
  {
    if n == k + 1 {
      CostPrefix(Without(entries, k), entries, k);
    } else {
      CostWithoutTo(entries, k, n - 1);
    }
  }

  lemma CostWithout(entries: seq<Entry>, k: nat)
    requires k < |entries|
    ensures Cost(Without(entries, k)) == Cost(entries) - EntryCost(entries[k])
  {
    CostWithoutTo(entries, k, |entries|);
  }

  lemma {:induction false} CostPutTo(entries: seq<Entry>, k: nat, e: Entry, n: nat)
    requires k < n <= |entries|
    ensures CostTo(entries[k := e], n) == CostTo(entries, n) - EntryCost(entries[k]) + EntryCost(e)
  {
    if n == k + 1 {
      CostPrefix(entries[k := e], entries, k);
    } else {
      CostPutTo(entries, k, e, n - 1);
    }
  }

  // ----- eviction is exact FIFO over terminal entries -----

  /** The entries left after giving up the `n` oldest terminal ones. */
  function DropOldest(entries: seq<Entry>, n: nat): seq<Entry>
    decreases n
  {
    var k := FirstTerminal(entries, 0);
    if n == 0 || k == |entries| then entries else DropOldest(Without(entries, k), n - 1)
  }

  /**
   * Eviction gives up exactly the `n` oldest terminal entries, where `n` is least such that the
   * rest is within both bounds or holds nothing terminal; the byte count stays exact.
   */
  lemma {:induction false} EvictIsFifo(entries: seq<Entry>) returns (n: nat)
    ensures
      var (kept, left) := Evict(entries, Cost(entries));
      kept == DropOldest(entries, n) && left == Cost(kept) && Settled(kept, left)
    ensures forall j: nat | j < n ::
      var kept := DropOldest(entries, j);
      Over(kept, Cost(kept)) && FirstTerminal(kept, 0) < |kept|
    decreases |entries|
  {
    var k := FirstTerminal(entries, 0);
    if entries == [] || !Over(entries, Cost(entries)) || k == |entries| {
      n := 0;
    } else {
      CostWithout(entries, k);
      var m := EvictIsFifo(Without(entries, k));
      n := m + 1;
      forall j: nat | j < n
        ensures
          var kept := DropOldest(entries, j);
          Over(kept, Cost(kept)) && FirstTerminal(kept, 0) < |kept|
      {
        if j > 0 {
          assert DropOldest(entries, j) == DropOldest(Without(entries, k), j - 1);
        }
      }
    }
  }

  /** Everything kept was there before, and everything lost was terminal. */
  ghost predicate Survivors(kept: seq<Entry>, entries: seq<Entry>) {
    && (forall e <- kept :: e in entries)
    && (forall e <- entries :: !e.terminal ==> e in kept)
  }

  lemma WithoutSurvives(entries: seq<Entry>, k: nat, highWater: nat)
    requires k < |entries| && entries[k].terminal && Ordered(entries, highWater)
    ensures Ordered(Without(entries, k), highWater) && Survivors(Without(entries, k), entries)
  {
    var rest := Without(entries, k);
    forall e | e in entries && !e.terminal ensures e in rest {
      var i :| 0 <= i < |entries| && entries[i] == e;
      assert rest[if i < k then i else i - 1] == e;
    }
  }

  lemma SurvivorsChain(a: seq<Entry>, b: seq<Entry>, c: seq<Entry>)
    requires Survivors(a, b) && Survivors(b, c)
    ensures Survivors(a, c)
  {}

  lemma {:induction false} EvictKeeps(entries: seq<Entry>, bytes: int, highWater: nat)
    requires Ordered(entries, highWater)
    ensures Ordered(Evict(entries, bytes).0, highWater) && Survivors(Evict(entries, bytes).0, entries)
    decreases |entries|
  {
    var k := FirstTerminal(entries, 0);
    if entries != [] && Over(entries, bytes) && k < |entries| {
      var rest, left := Without(entries, k), bytes - EntryCost(entries[k]);
      WithoutSurvives(entries, k, highWater);
      EvictKeeps(rest, left, highWater);
      SurvivorsChain(Evict(rest, left).0, rest, entries);
    }
  }

  // ----- steps -----

  /** The common tail of every operation: a changed entry list is evicted down to a settled one. */
  lemma EvictedInv(entries: seq<Entry>, highWater: nat, bytes: int)
    requires Ordered(entries, highWater) && highWater <= MAX64 && bytes == Cost(entries)
    requires ActiveEmpty(entries)
    ensures
      var kept := Evict(entries, bytes);
      Inv(Ledger(highWater, kept.0, kept.1)) && Settled(kept.0, kept.1) && Survivors(kept.0, entries)
  {
    var n := EvictIsFifo(entries);
    EvictKeeps(entries, bytes, highWater);
    var kept := Evict(entries, bytes).0;
    assert forall i | 0 <= i < |kept| :: kept[i] in entries;
  }

  lemma Appended(entries: seq<Entry>, highWater: nat, e: Entry)
    requires Ordered(entries, highWater) && ActiveEmpty(entries) && e.id == highWater + 1 && e.payload == ""
    ensures Ordered(entries + [e], highWater + 1) && ActiveEmpty(entries + [e]) && Cost(entries + [e]) == Cost(entries) + OVERHEAD
  {
    CostPrefix(entries + [e], entries, |entries|);
  }

  lemma Replaced(entries: seq<Entry>, highWater: nat, k: nat, e: Entry)
    requires Ordered(entries, highWater) && ActiveEmpty(entries) && k < |entries| && e.id == entries[k].id
    requires e.terminal || e.payload == ""
    ensures Ordered(entries[k := e], highWater) && ActiveEmpty(entries[k := e])
    ensures Cost(entries[k := e]) == Cost(entries) + |e.payload| - |entries[k].payload|
  {
    CostPutTo(entries, k, e, |entries|);
  }

  lemma AdmitKeepsInv(l: Ledger, e: Entry)
    requires Inv(l) && l.highWater < MAX64 && e.id == l.highWater + 1 && e.payload == ""
    ensures Inv(Admit(l, e)) && Settled(Admit(l, e).entries, Admit(l, e).bytes) && Survivors(Admit(l, e).entries, l.entries + [e])
  {
    Appended(l.entries, l.highWater, e);
    EvictedInv(l.entries + [e], e.id, l.bytes + OVERHEAD);
  }

  lemma CompleteKeepsInv(l: Ledger, k: nat, e': Entry)
    requires Inv(l) && k < |l.entries| && e'.id == l.entries[k].id && e'.terminal
    ensures Inv(Complete(l, k, e')) && Settled(Complete(l, k, e').entries, Complete(l, k, e').bytes)
    ensures Survivors(Complete(l, k, e').entries, l.entries[k := e'])
  {
    Replaced(l.entries, l.highWater, k, e');
    EvictedInv(l.entries[k := e'], l.highWater, l.bytes + |e'.payload| - |l.entries[k].payload|);
  }

  lemma ApplyKeepsInv(l: Ledger, op: Op)
    requires Inv(l) && l.highWater < MAX64
    ensures Inv(Apply(l, op))
    ensures Apply(l, op).highWater == if Admits(l, op) then l.highWater + 1 else l.highWater
  {
    match op
    case Claim(id, canonical, opID) => if Admits(l, op) { AdmitKeepsInv(l, NewClaim(id, canonical, opID)); }
    case Reject(id, canonical, err) => if Admits(l, op) { AdmitKeepsInv(l, NewRejection(id, canonical, err)); }
    case Result(id, payload, cut, frame) =>
      var k := Find(l.entries, id, 0);
      if k < |l.entries| && !l.entries[k].terminal { CompleteKeepsInv(l, k, Finished(l.entries[k], payload, cut, frame)); }
    case Error(id, err) =>
      var k := Find(l.entries, id, 0);
      if k < |l.entries| && !l.entries[k].terminal { CompleteKeepsInv(l, k, Failed(l.entries[k], err)); }
    case Accept(id, cut, frame) =>
      var k := Find(l.entries, id, 0);
      if k < |l.entries| && !l.entries[k].terminal { Replaced(l.entries, l.highWater, k, l.entries[k].(acceptedCut := cut, acceptedFrame := frame)); }
  }

  /** Every admission and every completion that takes effect leaves the ledger settled. */
  lemma ApplySettles(l: Ledger, op: Op)
    requires Inv(l) && l.highWater < MAX64 && !op.Accept? && Apply(l, op) != l
    ensures Settled(Apply(l, op).entries, Apply(l, op).bytes)
  {
    match op
    case Claim(id, canonical, opID) => AdmitKeepsInv(l, NewClaim(id, canonical, opID));
    case Reject(id, canonical, err) => AdmitKeepsInv(l, NewRejection(id, canonical, err));
    case Result(id, payload, cut, frame) =>
      var k := Find(l.entries, id, 0);
      CompleteKeepsInv(l, k, Finished(l.entries[k], payload, cut, frame));
    case Error(id, err) =>
      var k := Find(l.entries, id, 0);
      CompleteKeepsInv(l, k, Failed(l.entries[k], err));
  }

  // ----- runs -----

  /** A run together with the identifiers it admitted, in admission order. */
  ghost function Run(l: Ledger, ops: seq<Op>): (r: (Ledger, seq<nat>))
    requires Inv(l) && l.highWater + |ops| <= MAX64
    ensures Inv(r.0)
    decreases |ops|
  {
    if ops == [] then (l, [])
    else
      ApplyKeepsInv(l, ops[0]);
      var rest := Run(Apply(l, ops[0]), ops[1..]);
      (rest.0, (if Admits(l, ops[0]) then [ops[0].id] else []) + rest.1)
  }

  /** The identifiers a run admits are the next ones after the starting high-water mark, each once and in order. */
  lemma {:induction false} AdmittedInOrder(l: Ledger, ops: seq<Op>)
    requires Inv(l) && l.highWater + |ops| <= MAX64
    ensures
      var r := Run(l, ops);
      |r.1| == r.0.highWater - l.highWater && forall i | 0 <= i < |r.1| :: r.1[i] == l.highWater + 1 + i
    decreases |ops|
  {
    if ops != [] {
      ApplyKeepsInv(l, ops[0]);
      AdmittedInOrder(Apply(l, ops[0]), ops[1..]);
    }
  }

  const EMPTY := Ledger(0, [], 0)

  /** At most once: from a new ledger, a run admits exactly 1..highWater, each identifier once. */
  lemma AtMostOnce(ops: seq<Op>)
    requires |ops| <= MAX64
    ensures Inv(EMPTY)
    ensures
      var r := Run(EMPTY, ops);
      && |r.1| == r.0.highWater
      && (forall i | 0 <= i < |r.1| :: r.1[i] == i + 1)
      && (forall id: nat :: 1 <= id <= r.0.highWater <==> id in r.1)
  {
    AdmittedInOrder(EMPTY, ops);
    var r := Run(EMPTY, ops);
    forall id: nat | 1 <= id <= r.0.highWater ensures id in r.1 {
      assert r.1[id - 1] == id;
    }
  }

  // ----- lookup -----

  lemma FindUnique(entries: seq<Entry>, highWater: nat, e: Entry)
    requires Ordered(entries, highWater) && e in entries
    ensures Find(entries, e.id, 0) < |entries| && entries[Find(entries, e.id, 0)] == e
  {
    var i :| 0 <= i < |entries| && entries[i] == e;
    var k := Find(entries, e.id, 0);
    assert k <= i;
  }

  /** Lookup splits all identifiers: above the mark unknown; below it retained exactly when an entry is held, else expired. */
  lemma LookupPartitions(l: Ledger, id: nat)
    requires Inv(l)
    ensures Lookup(l, id).Unknown? <==> id > l.highWater
    ensures Lookup(l, id).Expired? <==> id <= l.highWater && forall e <- l.entries :: e.id != id
    ensures forall e :: Lookup(l, id) == Retained(e) <==> e in l.entries && e.id == id
  {
    forall e ensures Lookup(l, id) == Retained(e) <==> e in l.entries && e.id == id {
      if e in l.entries && e.id == id {
        FindUnique(l.entries, l.highWater, e);
      }
    }
  }

  /** How one step may change the entries: each one held afterwards was held before, or replaces an active one, or is the new admission. */
  ghost predicate Follows(l: Ledger, l': Ledger) {
    forall e' <- l'.entries :: e' in l.entries || e'.id > l.highWater || exists e <- l.entries :: e.id == e'.id && !e.terminal
  }

  lemma ApplyFollows(l: Ledger, op: Op)
    requires Inv(l) && l.highWater < MAX64
    ensures Follows(l, Apply(l, op))
  {
    match op
    case Claim(id, canonical, opID) => if Admits(l, op) { AdmitKeepsInv(l, NewClaim(id, canonical, opID)); }
    case Reject(id, canonical, err) => if Admits(l, op) { AdmitKeepsInv(l, NewRejection(id, canonical, err)); }
    case Result(id, payload, cut, frame) =>
      var k := Find(l.entries, id, 0);
      if k < |l.entries| && !l.entries[k].terminal { PutFollows(l, k, Finished(l.entries[k], payload, cut, frame)); }
    case Error(id, err) =>
      var k := Find(l.entries, id, 0);
      if k < |l.entries| && !l.entries[k].terminal { PutFollows(l, k, Failed(l.entries[k], err)); }
    case Accept(id, cut, frame) =>
      var k := Find(l.entries, id, 0);
      if k < |l.entries| && !l.entries[k].terminal { assert l.entries[k] in l.entries; }
  }

  lemma PutFollows(l: Ledger, k: nat, e': Entry)
    requires Inv(l) && k < |l.entries| && !l.entries[k].terminal && e'.id == l.entries[k].id && e'.terminal
    ensures Follows(l, Complete(l, k, e'))
  {
    CompleteKeepsInv(l, k, e');
    assert l.entries[k] in l.entries;
    forall e <- Complete(l, k, e').entries ensures e in l.entries || exists o <- l.entries :: o.id == e.id && !o.terminal {
      assert e in l.entries[k := e'];
    }
  }

  lemma StepKeepsExpired(l: Ledger, op: Op, id: nat)
    requires Inv(l) && l.highWater < MAX64 && Lookup(l, id).Expired?
    ensures Lookup(Apply(l, op), id).Expired? && (Admits(l, op) ==> op.id != id)
  {
    ApplyKeepsInv(l, op);
    ApplyFollows(l, op);
    LookupPartitions(l, id);
    LookupPartitions(Apply(l, op), id);
  }

  /** An expired identifier stays expired, and no later operation ever admits it again. */
  lemma {:induction false} ExpiredForever(l: Ledger, ops: seq<Op>, id: nat)
    requires Inv(l) && l.highWater + |ops| <= MAX64 && Lookup(l, id).Expired?
    ensures Lookup(Run(l, ops).0, id).Expired? && id !in Run(l, ops).1
    decreases |ops|
  {
    if ops != [] {
      ApplyKeepsInv(l, ops[0]);
      StepKeepsExpired(l, ops[0], id);
      ExpiredForever(Apply(l, ops[0]), ops[1..], id);
    }
  }

  lemma StepKeepsOutcome(l: Ledger, op: Op, e: Entry)
    requires Inv(l) && l.highWater < MAX64 && Lookup(l, e.id) == Retained(e) && e.terminal
    ensures Lookup(Apply(l, op), e.id) == Retained(e) || Lookup(Apply(l, op), e.id).Expired?
  {
    var l' := Apply(l, op);
    ApplyKeepsInv(l, op);
    ApplyFollows(l, op);
    LookupPartitions(l, e.id);
    LookupPartitions(l', e.id);
    forall o <- l.entries | o.id == e.id ensures o == e {
      FindUnique(l.entries, l.highWater, o);
    }
  }

  /** A recorded outcome never changes: it is reported unchanged until it expires. */
  lemma {:induction false} OutcomeNeverChanges(l: Ledger, ops: seq<Op>, e: Entry)
    requires Inv(l) && l.highWater + |ops| <= MAX64 && Lookup(l, e.id) == Retained(e) && e.terminal
    ensures Lookup(Run(l, ops).0, e.id) == Retained(e) || Lookup(Run(l, ops).0, e.id).Expired?
    decreases |ops|
  {
    if ops != [] {
      ApplyKeepsInv(l, ops[0]);
      StepKeepsOutcome(l, ops[0], e);
      if Lookup(Apply(l, ops[0]), e.id).Expired? {
        ExpiredForever(Apply(l, ops[0]), ops[1..], e.id);
      } else {
        OutcomeNeverChanges(Apply(l, ops[0]), ops[1..], e);
      }
    }
  }

  // ----- active operations are pinned -----

  predicate Completes(op: Op, id: nat) {
    (op.Result? || op.Error?) && op.id == id
  }

  ghost predicate ActiveAs(l: Ledger, e: Entry) {
    exists held <- l.entries :: held.id == e.id && !held.terminal && held.opID == e.opID && held.canonical == e.canonical
  }

  lemma PutKeepsActive(l: Ledger, k: nat, e': Entry, e: Entry)
    requires Inv(l) && k < |l.entries| && e'.id == l.entries[k].id && e'.terminal && e'.id != e.id && ActiveAs(l, e)
    ensures ActiveAs(Complete(l, k, e'), e)
  {
    CompleteKeepsInv(l, k, e');
    var held :| held in l.entries && held.id == e.id && !held.terminal && held.opID == e.opID && held.canonical == e.canonical;
    var i :| 0 <= i < |l.entries| && l.entries[i] == held;
    assert l.entries[k := e'][i] == held;
  }

  lemma AcceptKeepsActive(l: Ledger, k: nat, cut: string, frame: string, e: Entry)
    requires Inv(l) && k < |l.entries| && !l.entries[k].terminal && ActiveAs(l, e)
    ensures ActiveAs(l.(entries := l.entries[k := l.entries[k].(acceptedCut := cut, acceptedFrame := frame)]), e)
  {
    var held :| held in l.entries && held.id == e.id && !held.terminal && held.opID == e.opID && held.canonical == e.canonical;
    var i :| 0 <= i < |l.entries| && l.entries[i] == held;
    var entries' := l.entries[k := l.entries[k].(acceptedCut := cut, acceptedFrame := frame)];
    assert entries'[i] in entries';
  }

  lemma AdmitKeepsActive(l: Ledger, n: Entry, e: Entry)
    requires Inv(l) && l.highWater < MAX64 && n.id == l.highWater + 1 && n.payload == "" && ActiveAs(l, e)
    ensures ActiveAs(Admit(l, n), e)
  {
    AdmitKeepsInv(l, n);
  }

  lemma StepKeepsActive(l: Ledger, op: Op, e: Entry)
    requires Inv(l) && l.highWater < MAX64 && ActiveAs(l, e) && !Completes(op, e.id)
    ensures ActiveAs(Apply(l, op), e)
  {
    match op
    case Claim(id, canonical, opID) => if Admits(l, op) { AdmitKeepsActive(l, NewClaim(id, canonical, opID), e); }
    case Reject(id, canonical, err) => if Admits(l, op) { AdmitKeepsActive(l, NewRejection(id, canonical, err), e); }
    case Result(id, payload, cut, frame) =>
      var k := Find(l.entries, id, 0);
      if k < |l.entries| && !l.entries[k].terminal { PutKeepsActive(l, k, Finished(l.entries[k], payload, cut, frame), e); }
    case Error(id, err) =>
      var k := Find(l.entries, id, 0);
      if k < |l.entries| && !l.entries[k].terminal { PutKeepsActive(l, k, Failed(l.entries[k], err), e); }
    case Accept(id, cut, frame) =>
      var k := Find(l.entries, id, 0);
      if k < |l.entries| && !l.entries[k].terminal { AcceptKeepsActive(l, k, cut, frame, e); }
  }

  /** An operation still executing is never evicted: until something completes it, every run keeps it retained and active. */
  lemma {:induction false} ActiveNeverEvicted(l: Ledger, ops: seq<Op>, e: Entry)
    requires Inv(l) && l.highWater + |ops| <= MAX64 && ActiveAs(l, e)
    requires forall i | 0 <= i < |ops| :: !Completes(ops[i], e.id)
    ensures ActiveAs(Run(l, ops).0, e)
    decreases |ops|
  {
    if ops != [] {
      ApplyKeepsInv(l, ops[0]);
      StepKeepsActive(l, ops[0], e);
      ActiveNeverEvicted(Apply(l, ops[0]), ops[1..], e);
    }
  }
}
