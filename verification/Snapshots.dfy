/**
 * The runtime's observation index and its retained tree snapshots (runtime/drive_observation.go,
 * runtime/drive_methods_locate.go). The ghost history `taken` records the rows of every snapshot when it was
 * made; the invariant says the heap still shows them, whatever refreshes have happened since.
 */
module Snapshots {
  import opened Machine
  import opened Observation

  /** The pages cut the first len slots of one backing array into runs of 256. */
  ghost predicate Tiled(pages: seq<Page>, backing: array<Entry>, len: nat) {
    && |pages| == PageCount(len) && len <= backing.Length
    && forall k | 0 <= k < |pages| :: pages[k].backing == backing && pages[k].lo == PAGE * k && pages[k].hi == Min(len, PAGE * k + PAGE)
  }

  /** observationPages. */
  method MakePages(backing: array<Entry>, len: nat) returns (pages: seq<Page>)
    requires len <= backing.Length
    ensures Tiled(pages, backing, len)
    ensures forall k | 0 <= k < |pages| :: fresh(pages[k]) && pages[k].refs == 0
  {
    pages := [];
    var start := 0;
    while start < len
      invariant start == PAGE * |pages| && start < len + PAGE
      invariant forall k | 0 <= k < |pages| :: fresh(pages[k]) && pages[k].refs == 0
      invariant forall k | 0 <= k < |pages| :: pages[k].backing == backing && pages[k].lo == PAGE * k && pages[k].hi == Min(len, PAGE * k + PAGE)
    {
      var page := new Page(backing, start, Min(len, start + PAGE));
      pages := pages + [page];
      start := start + PAGE;
    }
  }

  // ----- selection -----

  ghost predicate InRange(nodes: seq<Entry>, s: Selection) {
    forall j | 0 <= j < |s.indices| :: s.page.lo + s.indices[j] < |nodes|
  }

  ghost function Picked(nodes: seq<Entry>, s: Selection): seq<Row>
    requires InRange(nodes, s)
  {
    seq(|s.indices|, j requires 0 <= j < |s.indices| => nodes[s.page.lo + s.indices[j]].row)
  }

  ghost function PickedAll(nodes: seq<Entry>, sels: seq<Selection>, n: nat): seq<Row>
    requires n <= |sels| && forall i | 0 <= i < |sels| :: InRange(nodes, sels[i])
  {
    if n == 0 then [] else PickedAll(nodes, sels, n - 1) + Picked(nodes, sels[n - 1])
  }

  lemma {:induction false} PickedPrefix(nodes: seq<Entry>, a: seq<Selection>, b: seq<Selection>, n: nat)
    requires n <= |a| && n <= |b| && forall i | 0 <= i < n :: a[i] == b[i]
    requires (forall i | 0 <= i < |a| :: InRange(nodes, a[i])) && (forall i | 0 <= i < |b| :: InRange(nodes, b[i]))
    ensures PickedAll(nodes, a, n) == PickedAll(nodes, b, n)
    ensures Count(a, n) == Count(b, n) && SelectionBytes(a, n) == SelectionBytes(b, n)
  {
    if n > 0 { PickedPrefix(nodes, a, b, n - 1); }
  }

  /** When all pages view one array, reading the heap through them is picking from the array's contents. */
  lemma {:induction false} PickedIsRows(backing: array<Entry>, len: nat, sels: seq<Selection>, n: nat)
    requires AllOk(sels) && n <= |sels| && len <= backing.Length
    requires forall i | 0 <= i < |sels| :: sels[i].page.backing == backing && InRange(backing[..len], sels[i])
    ensures RowsOf(sels, n) == PickedAll(backing[..len], sels, n)
  {
    if n > 0 {
      PickedIsRows(backing, len, sels, n - 1);
      assert SelectedRows(sels[n - 1]) == Picked(backing[..len], sels[n - 1]);
    }
  }

  /** Page k of an index of len entries has a kept entry. */
  ghost predicate PageHit(keep: set<nat>, len: nat, k: nat) {
    exists p :: p in keep && PAGE * k <= p < Min(len, PAGE * k + PAGE)
  }

  ghost function PagesHit(keep: set<nat>, len: nat, n: nat): nat {
    if n == 0 then 0 else PagesHit(keep, len, n - 1) + if PageHit(keep, len, n - 1) then 1 else 0
  }

  /** The positions a snapshot of an index of len entries shows. */
  ghost function Shown(keep: set<nat>, len: nat): set<nat> {
    set p | p in keep && p < len
  }

  /** The pages of 256 entries those positions lie in, up to page n. */
  ghost function Touched(keep: set<nat>, len: nat, n: nat): set<nat> {
    set p | p in keep && p < len && p / 256 < n :: p / 256
  }

  lemma {:induction false} KeptCount(nodes: seq<Entry>, keep: set<nat>, n: nat)
    requires n <= |nodes|
    ensures |Kept(nodes, keep, n)| == |Shown(keep, n)|
  {
    if n == 0 {
      assert Shown(keep, 0) == {};
    } else {
      KeptCount(nodes, keep, n - 1);
      assert Shown(keep, n) == Shown(keep, n - 1) + if n - 1 in keep then {n - 1} else {};
    }
  }

  lemma {:induction false} TouchedCount(keep: set<nat>, len: nat, n: nat)
    requires n <= PageCount(len)
    ensures PagesHit(keep, len, n) == |Touched(keep, len, n)|
  {
    if n == 0 {
      assert Touched(keep, len, 0) == {};
    } else {
      TouchedCount(keep, len, n - 1);
      var now, before := Touched(keep, len, n), Touched(keep, len, n - 1);
      if PageHit(keep, len, n - 1) {
        var p :| p in keep && PAGE * (n - 1) <= p < Min(len, PAGE * (n - 1) + PAGE);
        assert p / 256 == n - 1;
        assert now == before + {n - 1};
      } else {
        assert now == before;
      }
    }
  }

  lemma PageOfPosition(p: nat, len: nat)
    requires p < len
    ensures p / 256 < PageCount(len)
  {}

  /** A snapshot costs two bytes an entry shown, 32 a page touched and, unless it is empty, the whole generation. */
  lemma ChargeMeaning(nodes: seq<Entry>, keep: set<nat>, bytes: nat)
    ensures
      var shown := set p | p in keep && p < |nodes|;
      Charge(nodes, keep, bytes) == 2 * |shown| + 32 * |set p | p in shown :: p / 256| + if shown == {} then 0 else bytes
  {
    var shown := set p | p in keep && p < |nodes|;
    KeptCount(nodes, keep, |nodes|);
    TouchedCount(keep, |nodes|, PageCount(|nodes|));
    assert shown == Shown(keep, |nodes|);
    forall p | p in shown ensures p / 256 < PageCount(|nodes|) { PageOfPosition(p, |nodes|); }
    var touched := Touched(keep, |nodes|, PageCount(|nodes|));
    forall p | p in shown ensures p / 256 in touched {}
    forall k | k in touched ensures k in set p | p in shown :: p / 256 {
      var p :| p in keep && p < |nodes| && p / 256 == k;
      assert p in shown;
    }
    assert (set p | p in shown :: p / 256) == touched;
  }

  /** What a snapshot of the kept entries is charged: its index list, its page directory and the whole generation. */
  ghost function Charge(nodes: seq<Entry>, keep: set<nat>, bytes: nat): nat {
    var rows := Kept(nodes, keep, |nodes|);
    2 * |rows| + 32 * PagesHit(keep, |nodes|, PageCount(|nodes|)) + if rows == [] then 0 else bytes
  }

  lemma {:induction false} SelectionBytesIs(sels: seq<Selection>, n: nat)
    requires n <= |sels|
    ensures SelectionBytes(sels, n) == 2 * Count(sels, n) + 32 * n
  {
    if n > 0 { SelectionBytesIs(sels, n - 1); }
  }

  /** The inner selection loop: which entries of one page are kept. */
  method SelectIndices(lo: nat, hi: nat, keep: set<nat>, ghost nodes: seq<Entry>) returns (indices: seq<nat>)
    requires lo <= hi <= |nodes|
    ensures forall j | 0 <= j < |indices| :: lo + indices[j] < hi
    ensures indices != [] <==> exists p :: p in keep && lo <= p < hi
    ensures Kept(nodes, keep, hi) == Kept(nodes, keep, lo) + seq(|indices|, j requires 0 <= j < |indices| => nodes[lo + indices[j]].row)
  {
    indices := [];
    for i := 0 to hi - lo
      invariant forall j | 0 <= j < |indices| :: lo + indices[j] < lo + i
      invariant indices != [] <==> exists p :: p in keep && lo <= p < lo + i
      invariant Kept(nodes, keep, lo + i) == Kept(nodes, keep, lo) + seq(|indices|, j requires 0 <= j < |indices| => nodes[lo + indices[j]].row)
    {
      ghost var before := seq(|indices|, j requires 0 <= j < |indices| => nodes[lo + indices[j]].row);
      if lo + i in keep {
        indices := indices + [i];
        assert seq(|indices|, j requires 0 <= j < |indices| => nodes[lo + indices[j]].row) == before + [nodes[lo + i].row];
      }
    }
  }

  ghost predicate Chosen(nodes: seq<Entry>, keep: set<nat>, n: nat, sels: seq<Selection>, count: nat, bytes: nat) {
    && n <= |nodes| && (forall i | 0 <= i < |sels| :: InRange(nodes, sels[i]))
    && PickedAll(nodes, sels, |sels|) == Kept(nodes, keep, n)
    && count == Count(sels, |sels|) && bytes == SelectionBytes(sels, |sels|)
  }

  lemma ChosenStep(nodes: seq<Entry>, keep: set<nat>, lo: nat, hi: nat, sels: seq<Selection>, count: nat, bytes: nat, s: Selection)
    requires Chosen(nodes, keep, lo, sels, count, bytes) && s.page.lo == lo && hi <= |nodes| && InRange(nodes, s)
    requires Kept(nodes, keep, hi) == Kept(nodes, keep, lo) + Picked(nodes, s)
    ensures Chosen(nodes, keep, hi, sels + [s], count + |s.indices|, bytes + 2 * |s.indices| + 32)
    ensures s.indices == [] ==> Chosen(nodes, keep, hi, sels, count, bytes)
  {
    PickedPrefix(nodes, sels, sels + [s], |sels|);
  }

  ghost predicate FromPages(sels: seq<Selection>, pages: seq<Page>, n: nat)
    requires n <= |pages|
  {
    && AllOk(sels)
    && (forall i | 0 <= i < |sels| :: exists k :: 0 <= k < n && sels[i].page == pages[k])
    && (forall i, j | 0 <= i < j < |sels| :: sels[i].page.lo < sels[j].page.lo)
  }

  /** The page loop of tree.dump: keep each page that has a selected entry, with the selected positions. */
  method Select(pages: seq<Page>, keep: set<nat>, backing: array<Entry>, len: nat, ghost nodes: seq<Entry>) returns (sels: seq<Selection>, count: nat, bytes: nat)
    requires Tiled(pages, backing, len) && |nodes| == len
    ensures FromPages(sels, pages, |pages|) && |sels| == PagesHit(keep, len, |pages|)
    ensures Chosen(nodes, keep, len, sels, count, bytes) && Captures(PickedAll(nodes, sels, |sels|), nodes, keep)
  {
    KeptCaptures(nodes, keep);
    sels, count, bytes := [], 0, 0;
    for k := 0 to |pages|
      invariant Selecting(pages, k, keep, len, nodes, sels, count, bytes)
    {
      sels, count, bytes := SelectPage(pages, k, keep, backing, len, nodes, sels, count, bytes);
    }
  }

  /** The selection of the first k pages. */
  ghost predicate Selecting(pages: seq<Page>, k: nat, keep: set<nat>, len: nat, nodes: seq<Entry>, sels: seq<Selection>, count: nat, bytes: nat)
    requires k <= |pages|
  {
    FromPages(sels, pages, k) && |sels| == PagesHit(keep, len, k) && Chosen(nodes, keep, Min(len, PAGE * k), sels, count, bytes)
  }

  /** One page: its selected positions join the directory if there are any. */
  method SelectPage(pages: seq<Page>, k: nat, keep: set<nat>, backing: array<Entry>, len: nat, ghost nodes: seq<Entry>, sels: seq<Selection>, count: nat, bytes: nat)
    returns (sels': seq<Selection>, count': nat, bytes': nat)
    requires Tiled(pages, backing, len) && |nodes| == len && k < |pages| && Selecting(pages, k, keep, len, nodes, sels, count, bytes)
    ensures Selecting(pages, k + 1, keep, len, nodes, sels', count', bytes')
  {
    var lo, hi := pages[k].lo, pages[k].hi;
    assert lo == PAGE * k == Min(len, PAGE * k) && hi == Min(len, PAGE * (k + 1));
    var indices := SelectIndices(lo, hi, keep, nodes);
    var s := Selection(pages[k], indices);
    assert indices != [] <==> PageHit(keep, len, k);
    ChosenStep(nodes, keep, lo, hi, sels, count, bytes, s);
    sels', count', bytes' := sels, count, bytes;
    if indices != [] {
      PagesAscend(pages, backing, len);
      FromPagesStep(sels, pages, k, s);
      sels', count', bytes' := sels + [s], count + |indices|, bytes + 2 * |indices| + 32;
    }
  }

  lemma PagesAscend(pages: seq<Page>, backing: array<Entry>, len: nat)
    requires Tiled(pages, backing, len)
    ensures forall i, j | 0 <= i < j < |pages| :: pages[i].lo < pages[j].lo
  {}

  lemma FromPagesStep(sels: seq<Selection>, pages: seq<Page>, k: nat, s: Selection)
    requires k < |pages| && FromPages(sels, pages, k) && s.page == pages[k] && SelectionOk(s)
    requires forall i, j | 0 <= i < j < |pages| :: pages[i].lo < pages[j].lo
    ensures FromPages(sels + [s], pages, k + 1)
  {}

  // ----- page references -----

  /** Add one reference to every page of the list, and to no other page. */
  method Pin(s: Snapshot, ghost tracked: set<Page>)
    requires DistinctPages(s.pages) && forall i | 0 <= i < |s.pages| :: s.pages[i].page in tracked
    modifies tracked`refs
    ensures forall p | p in tracked :: p.refs == old(p.refs) + if Holds(s, p) then 1 else 0
  {
    var sels := s.pages;
    for n := 0 to |sels|
      invariant forall i | 0 <= i < n :: sels[i].page.refs == old(sels[i].page.refs) + 1
      invariant forall i | n <= i < |sels| :: sels[i].page.refs == old(sels[i].page.refs)
      invariant forall p | p in tracked && !Holds(s, p) :: p.refs == old(p.refs)
    {
      assert Holds(s, sels[n].page);
      sels[n].page.refs := sels[n].page.refs + 1;
    }
  }

  /** Drop one reference from every page of the list, and from no other; a page with a reference never goes negative. */
  method Unpin(s: Snapshot, ghost tracked: set<Page>)
    requires DistinctPages(s.pages) && forall i | 0 <= i < |s.pages| :: s.pages[i].page in tracked && s.pages[i].page.refs >= 1
    modifies tracked`refs
    ensures forall p | p in tracked :: p.refs == old(p.refs) - if Holds(s, p) then 1 else 0
  {
    var sels := s.pages;
    for n := 0 to |sels|
      invariant forall i | 0 <= i < n :: sels[i].page.refs == old(sels[i].page.refs) - 1
      invariant forall i | n <= i < |sels| :: sels[i].page.refs == old(sels[i].page.refs)
      invariant forall p | p in tracked && !Holds(s, p) :: p.refs == old(p.refs)
    {
      assert Holds(s, sels[n].page);
      sels[n].page.refs := sels[n].page.refs - 1;
      assert sels[n].page.refs >= 0;
    }
  }

  // ----- the retained snapshots, as a value -----

  /** Every selection of every snapshot is tracked, and views the current array only through a current page. */
  ghost predicate Anchored(s: Snapshot, tracked: set<Page>, pages: seq<Page>, backing: array<Entry>) {
    forall i | 0 <= i < |s.pages| :: s.pages[i].page in tracked && (s.pages[i].page.backing == backing ==> s.pages[i].page in pages)
  }

  ghost predicate TokensOk(snapshots: map<nat, Snapshot>, taken: map<nat, seq<Row>>, next: nat) {
    && next <= MAX64
    && (forall t | t in snapshots :: t in taken && SnapshotOk(snapshots[t]))
    && (forall t | t in taken :: 1 <= t <= next)
  }

  ghost predicate Budget(snapshots: map<nat, Snapshot>, total: int, next: nat) {
    && total == RetainedBytes(snapshots, next) && total <= RETAINED_BYTES
    && forall o: nat :: |Owned(snapshots, o)| <= HANDLES
  }

  lemma BudgetInsert(m: map<nat, Snapshot>, total: int, t: nat, s: Snapshot)
    requires t >= 1 && Budget(m, total, t - 1) && t !in m && total + s.bytes <= RETAINED_BYTES && |Owned(m, s.owner)| < HANDLES
    ensures Budget(m[t := s], total + s.bytes, t)
  {
    RetainedInsert(m, t, s, t - 1);
    var more := m[t := s];
    forall o: nat ensures |Owned(more, o)| <= HANDLES {
      OwnedInsert(m, t, s, o);
    }
  }

  lemma BudgetRemove(m: map<nat, Snapshot>, total: int, next: nat, t: nat)
    requires Budget(m, total, next) && t in m && 1 <= t <= next
    ensures Budget(m - {t}, total - m[t].bytes, next) && total - m[t].bytes >= 0
  {
    InsertThenRemove(m, t);
    RetainedInsert(m - {t}, t, m[t], next);
    forall o: nat ensures |Owned(m - {t}, o)| <= HANDLES {
      OwnedInsert(m - {t}, t, m[t], o);
    }
  }

  /** The snapshots not yet expired, and those still to be looked at. */
  function Surviving(m: map<nat, Snapshot>, todo: set<nat>, now: int): map<nat, Snapshot> {
    map t | t in m && (t in todo || now < m[t].expires) :: m[t]
  }

  lemma SurvivingStep(m: map<nat, Snapshot>, todo: set<nat>, now: int, t: nat)
    requires t in m && t in todo
    ensures t in Surviving(m, todo, now) && Surviving(m, todo, now)[t] == m[t]
    ensures Surviving(m, todo - {t}, now) == if now < m[t].expires then Surviving(m, todo, now) else Surviving(m, todo, now) - {t}
  {}

  function IndexBytes(cap: nat, nodes: seq<Entry>): nat {
    cap + SumRowBytes(nodes, |nodes|) + 32 * PageCount(|nodes|)
  }

  lemma NobodyHolds(m: map<nat, Snapshot>, tracked: set<Page>, pages: seq<Page>, backing: array<Entry>, p: Page)
    requires p !in tracked && forall t | t in m :: Anchored(m[t], tracked, pages, backing)
    ensures |Holders(m, p)| == 0
  {
    forall t | t in m ensures !Holds(m[t], p) {
      assert Anchored(m[t], tracked, pages, backing);
    }
    assert Holders(m, p) == {};
  }

  /** Pages tracked before stay tracked, and none views the new array. */
  lemma Reanchored(m: map<nat, Snapshot>, was: set<Page>, oldPages: seq<Page>, oldBacking: array<Entry>, tracked: set<Page>, pages: seq<Page>, backing: array<Entry>)
    requires was <= tracked && forall t | t in m :: Anchored(m[t], was, oldPages, oldBacking)
    requires forall t, i | t in m && 0 <= i < |m[t].pages| :: m[t].pages[i].page.backing != backing
    ensures forall t | t in m :: Anchored(m[t], tracked, pages, backing)
  {
    forall t | t in m ensures Anchored(m[t], tracked, pages, backing) {
      assert Anchored(m[t], was, oldPages, oldBacking);
    }
  }

  /** Clamp the offset, copy one page of rows, and say where to continue. */
  method CutPage(s: Snapshot, offset: nat, size: nat, ghost all: seq<Row>) returns (c: Chunk)
    requires SnapshotOk(s) && RowsOf(s.pages, |s.pages|) == all
    ensures c == PageAt(all, offset, size)
  {
    var from := Min(offset, s.count);
    var end := Min(s.count, from + size);
    var rows := Rows(s, from, end, all);
    c := Chunk(rows, if end < s.count then Some(end) else None);
  }

  lemma AnchoredInsert(m: map<nat, Snapshot>, more: map<nat, Snapshot>, t: nat, s: Snapshot, tracked: set<Page>, pages: seq<Page>, backing: array<Entry>)
    requires more == m[t := s] && forall u | u in m :: Anchored(m[u], tracked, pages, backing)
    requires forall i | 0 <= i < |s.pages| :: s.pages[i].page in pages && s.pages[i].page in tracked
    ensures forall u | u in more :: Anchored(more[u], tracked, pages, backing)
  {
    forall u | u in more ensures Anchored(more[u], tracked, pages, backing) {
      if u != t { assert Anchored(m[u], tracked, pages, backing); }
    }
  }

  class Runtime {
    const nodeCapacity: nat
    const byteCapacity: nat
    /** Bytes the backing array occupies: capacity times the entry size. */
    const arrayBytes: nat

    var backing: array<Entry>
    var len: nat
    var pages: seq<Page>
    var bytes: nat
    var dirty: bool
    var exhausted: bool
    var snapshots: map<nat, Snapshot>
    var snapshotBytes: int
    var nextToken: nat

    /** Pages whose references are accounted for, and the rows of every snapshot ever made. */
    ghost var tracked: set<Page>
    ghost var taken: map<nat, seq<Row>>

    ghost predicate Indexed()
      reads this
    {
      && Tiled(pages, backing, len) && backing.Length == nodeCapacity
      && (forall k | 0 <= k < |pages| :: pages[k] in tracked)
      && (!dirty && !exhausted ==> bytes <= byteCapacity)
      && TokensOk(snapshots, taken, nextToken) && Budget(snapshots, snapshotBytes, nextToken)
      && forall t | t in snapshots :: Anchored(snapshots[t], tracked, pages, backing)
    }

    ghost predicate Counted()
      reads this, tracked
    {
      forall p | p in tracked :: p.refs == |Holders(snapshots, p)|
    }

    ghost predicate Shows(t: nat)
      requires t in snapshots && t in taken && SnapshotOk(snapshots[t])
      reads this, set i | 0 <= i < |snapshots[t].pages| :: snapshots[t].pages[i].page.backing
    {
      RowsOf(snapshots[t].pages, |snapshots[t].pages|) == taken[t]
    }

    ghost predicate Stable()
      requires Indexed()
      reads this, set p | p in tracked :: p.backing
    {
      forall t | t in snapshots :: Shows(t)
    }

    ghost predicate Valid()
      reads this, tracked, set p | p in tracked :: p.backing
    {
      Indexed() && Counted() && Stable()
    }

    constructor (nodeCapacity: nat, byteCapacity: nat, entrySize: nat)
      ensures Valid() && snapshots == map[] && taken == map[] && tracked == {} && dirty && fresh(backing)
      ensures this.nodeCapacity == nodeCapacity && this.byteCapacity == byteCapacity && arrayBytes == nodeCapacity * entrySize
    {
      this.nodeCapacity, this.byteCapacity, arrayBytes := nodeCapacity, byteCapacity, nodeCapacity * entrySize;
      backing := new Entry[nodeCapacity];
      len, pages, bytes, dirty, exhausted := 0, [], 0, true, false;
      snapshots, snapshotBytes, nextToken, tracked, taken := map[], 0, 0, {}, map[];
    }

    /** Copy the entries into the array in place, giving up as soon as the byte capacity is passed. */
    method Fill(nodes: seq<Entry>) returns (ok: bool)
      requires |nodes| <= backing.Length && len == 0 && bytes == arrayBytes && arrayBytes <= byteCapacity
      modifies this`len, this`bytes, backing
      ensures ok == (arrayBytes + SumRowBytes(nodes, |nodes|) <= byteCapacity)
      ensures ok ==> len == |nodes| && backing[..len] == nodes && bytes == arrayBytes + SumRowBytes(nodes, |nodes|)
      ensures !ok ==> len == 0
    {
      for n := 0 to |nodes|
        invariant len == n && bytes == arrayBytes + SumRowBytes(nodes, n) <= byteCapacity
        invariant forall i | 0 <= i < n :: backing[i] == nodes[i]
        modifies this`len, this`bytes, backing
      {
        bytes := bytes + RowBytes(nodes[n].row);
        if bytes > byteCapacity {
          SumRowBytesGrows(nodes, n + 1, |nodes|);
          len := 0;
          return false;
        }
        backing[n] := nodes[n];
        len := n + 1;
      }
      ok := true;
    }

    /** A held page of the current array makes the index pinned. */
    method AnyPinned() returns (pinned: bool)
      requires forall k | 0 <= k < |pages| :: pages[k] in tracked
      ensures pinned <==> exists k :: 0 <= k < |pages| && pages[k].refs != 0
    {
      for k := 0 to |pages|
        invariant forall i | 0 <= i < k :: pages[i].refs == 0
      {
        if pages[k].refs != 0 { return true; }
      }
      pinned := false;
    }

    /** When no current page is held, no snapshot views the current array at all. */
    lemma UnpinnedMeansUnviewed()
      requires Indexed() && Counted() && forall k | 0 <= k < |pages| :: pages[k].refs == 0
      ensures forall t, i | t in snapshots && 0 <= i < |snapshots[t].pages| :: snapshots[t].pages[i].page.backing != backing
    {
      forall t, i | t in snapshots && 0 <= i < |snapshots[t].pages| ensures snapshots[t].pages[i].page.backing != backing {
        var p := snapshots[t].pages[i].page;
        assert Anchored(snapshots[t], tracked, pages, backing);
        if p.backing == backing {
          assert Holds(snapshots[t], p);
          HoldersAtLeastOne(snapshots, t, p);
        }
      }
    }

    /** Refill the index after its array has been chosen. */
    method Rebuild(nodes: seq<Entry>)
      requires backing.Length == nodeCapacity
      modifies this`len, this`pages, this`bytes, this`exhausted, this`dirty, backing
      ensures Tiled(pages, backing, len) && forall k | 0 <= k < |pages| :: fresh(pages[k]) && pages[k].refs == 0
      ensures !dirty && exhausted == (|nodes| > nodeCapacity || IndexBytes(arrayBytes, nodes) > byteCapacity)
      ensures exhausted ==> len == 0 && pages == []
      ensures !exhausted ==> backing[..len] == nodes && len == |nodes| && bytes == IndexBytes(arrayBytes, nodes) <= byteCapacity
    {
      len, pages, bytes, exhausted, dirty := 0, [], arrayBytes, false, false;
      if bytes > byteCapacity || |nodes| > nodeCapacity {
        exhausted := true;
        return;
      }
      var ok := Fill(nodes);
      if !ok {
        exhausted := true;
        return;
      }
      pages := MakePages(backing, len);
      bytes := bytes + 32 * |pages|;
      if bytes > byteCapacity {
        len, pages, exhausted := 0, [], true;
      }
    }

    /** No retained snapshot reads the current array. */
    ghost predicate Unviewed()
      reads this
    {
      forall t, i | t in snapshots && 0 <= i < |snapshots[t].pages| :: snapshots[t].pages[i].page.backing != backing
    }

    /** Keep the array when no current page is held, otherwise take a new one; then nobody is looking at it. */
    method ChooseArray()
      requires Indexed() && Counted()
      modifies this`backing
      ensures fresh(backing) <==> old(exists k :: 0 <= k < |pages| && pages[k].refs != 0)
      ensures fresh(backing) || backing == old(backing)
      ensures backing.Length == nodeCapacity && Unviewed()
    {
      var pinned := AnyPinned();
      if pinned {
        backing := new Entry[nodeCapacity];
      } else {
        UnpinnedMeansUnviewed();
      }
    }

    /**
     * refreshDriveObservation: write the new observation in place when no current page is held, in a new array
     * when one is. Every retained snapshot still shows the rows it was taken with.
     */
    method Refresh(nodes: seq<Entry>)
      requires Valid()
      modifies this`backing, this`len, this`pages, this`bytes, this`exhausted, this`dirty, this`tracked, backing
      ensures Valid()
      ensures fresh(backing) <==> old(exists k :: 0 <= k < |pages| && pages[k].refs != 0)
      ensures fresh(backing) || backing == old(backing)
      ensures !dirty && exhausted == (|nodes| > nodeCapacity || IndexBytes(arrayBytes, nodes) > byteCapacity)
      ensures !exhausted ==> backing[..len] == nodes && bytes == IndexBytes(arrayBytes, nodes)
      ensures old(tracked) <= tracked && fresh(tracked - old(tracked))
    {
      ChooseArray();
      Rebuild(nodes);
      TrackPages();
      RefreshKeeps();
    }

    /** The new pages' references are counted from now on. */
    method TrackPages()
      modifies this`tracked
      ensures tracked == old(tracked) + set k | 0 <= k < |pages| :: pages[k]
    {
      tracked := tracked + set k | 0 <= k < |pages| :: pages[k];
    }

    /** New pages over an array nobody views: the snapshots are as good as before. */
    twostate lemma RefreshKeeps()
      requires old(Valid()) && unchanged(this`snapshots, this`snapshotBytes, this`nextToken, this`taken) && Unviewed()
      requires Tiled(pages, backing, len) && backing.Length == nodeCapacity && (!exhausted ==> bytes <= byteCapacity)
      requires tracked == old(tracked) + set k | 0 <= k < |pages| :: pages[k]
      requires forall p | p in old(tracked) :: unchanged(p) && (p.backing != backing ==> unchanged(p.backing))
      requires forall k | 0 <= k < |pages| :: pages[k].refs == 0 && pages[k] !in old(tracked)
      ensures Valid()
    {
      forall t, i | t in snapshots && 0 <= i < |snapshots[t].pages| ensures unchanged(snapshots[t].pages[i].page.backing) {
        assert old(Anchored(snapshots[t], tracked, pages, backing));
      }
      RowsKept();
      Reanchored(snapshots, old(tracked), old(pages), old(backing), tracked, pages, backing);
      CountsKept();
    }

    /** Newly tracked pages are held by nobody. */
    twostate lemma CountsKept()
      requires old(Indexed()) && old(Counted()) && snapshots == old(snapshots)
      requires forall p | p in tracked :: p in old(tracked) || p.refs == 0
      requires forall p | p in old(tracked) :: unchanged(p)
      ensures Counted()
    {
      forall p | p in tracked ensures p.refs == |Holders(snapshots, p)| {
        if p !in old(tracked) { NobodyHolds(snapshots, old(tracked), old(pages), old(backing), p); }
      }
    }

    /** The entries, size and exhaustion the next read of the observation will find, given the nodes visible now. */
    ghost function Seen(nodes: seq<Entry>): seq<Entry>
      requires len <= backing.Length
      reads this, backing
    {
      if dirty then nodes else backing[..len]
    }

    ghost function SeenBytes(nodes: seq<Entry>): nat
      reads this
    {
      if dirty then IndexBytes(arrayBytes, nodes) else bytes
    }

    ghost predicate SeenExhausted(nodes: seq<Entry>)
      reads this
    {
      if dirty then |nodes| > nodeCapacity || IndexBytes(arrayBytes, nodes) > byteCapacity else exhausted
    }

    /** observationAtCut: refresh only when dirty; available unless the capacity was exhausted. */
    method AtCut(nodes: seq<Entry>) returns (available: bool)
      requires Valid()
      modifies this`backing, this`len, this`pages, this`bytes, this`exhausted, this`dirty, this`tracked, backing
      ensures Valid() && !dirty && available == !exhausted && available == !old(SeenExhausted(nodes))
      ensures available ==> backing[..len] == old(Seen(nodes)) && bytes == old(SeenBytes(nodes))
      ensures old(tracked) <= tracked && fresh(tracked - old(tracked)) && (fresh(backing) || backing == old(backing))
    {
      if dirty { Refresh(nodes); }
      available := !exhausted;
    }

    method Invalidate()
      requires Valid()
      modifies this`dirty
      ensures Valid() && dirty
    {
      dirty := true;
    }

    /** deleteTreeSnapshot: drop its page references and its bytes. */
    method Delete(t: nat)
      requires Valid()
      modifies this`snapshots, this`snapshotBytes, tracked`refs
      ensures Valid() && snapshots == old(snapshots) - {t}
    {
      if t in snapshots {
        Discard(t);
      } else {
        assert snapshots == snapshots - {t};
      }
    }

    method Discard(t: nat)
      requires Valid() && t in snapshots
      modifies this`snapshots, this`snapshotBytes, tracked`refs
      ensures Valid() && snapshots == old(snapshots) - {t}
    {
      var s := snapshots[t];
      HeldIsCounted(t);
      Unpin(s, tracked);
      snapshotBytes := snapshotBytes - s.bytes;
      snapshots := snapshots - {t};
      RemoveKeepsValid(t);
    }

    twostate lemma RemoveKeepsValid(t: nat)
      requires old(Valid()) && t in old(snapshots) && snapshots == old(snapshots) - {t} && snapshotBytes == old(snapshotBytes) - old(snapshots)[t].bytes
      requires unchanged(this`backing, this`len, this`pages, this`bytes, this`exhausted, this`dirty, this`nextToken, this`tracked, this`taken)
      requires forall p | p in tracked :: p.refs == old(p.refs) - if Holds(old(snapshots)[t], p) then 1 else 0
      requires forall p | p in tracked :: unchanged(p.backing)
      ensures Valid()
    {
      BudgetRemove(old(snapshots), old(snapshotBytes), nextToken, t);
      CountsAfterRemove(t);
      forall u, i | u in snapshots && 0 <= i < |snapshots[u].pages| ensures snapshots[u].pages[i].page in tracked {
        assert Anchored(old(snapshots)[u], tracked, pages, backing);
      }
      RowsKept();
    }

    lemma HeldIsCounted(t: nat)
      requires Indexed() && Counted() && t in snapshots
      ensures DistinctPages(snapshots[t].pages)
      ensures forall i | 0 <= i < |snapshots[t].pages| :: snapshots[t].pages[i].page in tracked && snapshots[t].pages[i].page.refs >= 1
    {
      assert Anchored(snapshots[t], tracked, pages, backing) && SnapshotOk(snapshots[t]);
      forall i | 0 <= i < |snapshots[t].pages| ensures snapshots[t].pages[i].page.refs >= 1 {
        assert Holds(snapshots[t], snapshots[t].pages[i].page);
        HoldersAtLeastOne(snapshots, t, snapshots[t].pages[i].page);
      }
    }

    /** Dropping one reference from each page of snapshot t matches removing t. */
    twostate lemma CountsAfterRemove(t: nat)
      requires old(Indexed()) && old(Counted()) && t in old(snapshots) && snapshots == old(snapshots) - {t} && tracked == old(tracked)
      requires forall p | p in tracked :: p.refs == old(p.refs) - if Holds(old(snapshots)[t], p) then 1 else 0
      ensures Counted()
    {
      InsertThenRemove(old(snapshots), t);
      forall p | p in tracked ensures p.refs == |Holders(snapshots, p)| {
        HoldersInsert(snapshots, t, old(snapshots)[t], p);
      }
    }

    /** Rows of the snapshots that remain are as they were when only page counts and the map changed. */
    twostate lemma RowsKept()
      requires old(Indexed()) && old(Stable()) && taken == old(taken)
      requires forall t | t in snapshots :: t in old(snapshots) && snapshots[t] == old(snapshots[t])
      requires forall t, i | t in snapshots && 0 <= i < |snapshots[t].pages| :: unchanged(snapshots[t].pages[i].page.backing)
      ensures forall t | t in snapshots :: Shows(t)
    {
      forall t | t in snapshots ensures Shows(t) {
        assert old(Shows(t));
      }
    }

    /** cleanupTreeSnapshots: exactly the snapshots that have not expired remain. */
    method Cleanup(now: int)
      requires Valid()
      modifies this`snapshots, this`snapshotBytes, tracked`refs
      ensures Valid() && snapshots == Surviving(old(snapshots), {}, now)
      ensures forall t | t in old(snapshots) && now < old(snapshots)[t].expires :: t in snapshots && snapshots[t] == old(snapshots)[t]
      ensures forall t | t in snapshots :: t in old(snapshots) && now < snapshots[t].expires
    {
      var todo := snapshots.Keys;
      assert snapshots == Surviving(snapshots, todo, now);
      while todo != {}
        invariant Valid() && todo <= old(snapshots).Keys && tracked == old(tracked) && nextToken == old(nextToken)
        invariant snapshots == Surviving(old(snapshots), todo, now)
        modifies this`snapshots, this`snapshotBytes, tracked`refs
        decreases todo
      {
        var t :| t in todo;
        SurvivingStep(old(snapshots), todo, now, t);
        if now >= snapshots[t].expires { Delete(t); }
        todo := todo - {t};
      }
    }

    /** Count the handles a session holds. */
    method CountOwned(owner: nat) returns (owned: nat)
      ensures owned == |Owned(snapshots, owner)|
    {
      owned := 0;
      var todo := snapshots.Keys;
      ghost var seen: set<nat> := {};
      while todo != {}
        invariant todo <= snapshots.Keys && seen == Owned(snapshots, owner) - todo && owned == |seen|
        decreases todo
      {
        var t :| t in todo;
        if snapshots[t].owner == owner {
          owned := owned + 1;
          seen := seen + {t};
        }
        todo := todo - {t};
      }
      assert seen == Owned(snapshots, owner);
    }

    /** The selection of the current index: its pages are current, its rows are the kept rows in order. */
    method SelectCurrent(keep: set<nat>) returns (sels: seq<Selection>, count: nat, cost: nat)
      requires Indexed()
      ensures AllOk(sels) && DistinctPages(sels) && count == Count(sels, |sels|)
      ensures forall i | 0 <= i < |sels| :: sels[i].page in pages && sels[i].page.backing == backing
      ensures RowsOf(sels, |sels|) == Kept(backing[..len], keep, len)
      ensures cost + (if count > 0 then bytes else 0) == Charge(backing[..len], keep, bytes)
    {
      sels, count, cost := Select(pages, keep, backing, len, backing[..len]);
      assert forall i | 0 <= i < |sels| :: sels[i].page in pages && sels[i].page.backing == backing;
      PickedIsRows(backing, len, sels, |sels|);
      SelectionBytesIs(sels, |sels|);
    }

    /** There is room for a snapshot of the kept entries and for another handle of this session. */
    ghost predicate Admits(owner: nat, keep: set<nat>)
      requires len <= backing.Length
      reads this, backing
    {
      && snapshotBytes + Charge(backing[..len], keep, bytes) <= RETAINED_BYTES
      && |Owned(snapshots, owner)| < HANDLES && nextToken < MAX64
    }

    /**
     * Snapshot creation in driveTreeDump: the new handle captures exactly the kept rows of the current observation;
     * a refusal changes nothing. Tokens are never reused.
     */
    method Create(owner: nat, keep: set<nat>, now: int) returns (r: Option<nat>)
      requires Valid()
      modifies this`snapshots, this`snapshotBytes, this`nextToken, this`taken, tracked`refs
      ensures Valid()
      ensures r.Some? <==> old(Admits(owner, keep))
      ensures r.Some? ==> snapshotBytes == old(snapshotBytes) + old(Charge(backing[..len], keep, bytes))
      ensures r.None? ==> snapshots == old(snapshots) && snapshotBytes == old(snapshotBytes) && nextToken == old(nextToken) && taken == old(taken)
      ensures r.None? ==> forall p | p in tracked :: p.refs == old(p.refs)
      ensures r.Some? ==> r.value == old(nextToken) + 1 && nextToken == r.value && r.value in snapshots
      ensures r.Some? ==> snapshots == old(snapshots)[r.value := snapshots[r.value]]
      ensures r.Some? ==> snapshots[r.value].owner == owner && snapshots[r.value].expires == now + LIFETIME
      ensures r.Some? ==> taken == old(taken)[r.value := Kept(backing[..len], keep, len)]
      ensures r.Some? ==> Captures(taken[r.value], backing[..len], keep)
    {
      var sels, count, cost := SelectCurrent(keep);
      if count > 0 { cost := cost + bytes; }
      var room := HasRoom(owner, cost);
      if !room { return None; }
      var t := Retain(Snapshot(owner, sels, count, cost, now + LIFETIME));
      r := Some(t);
      KeptCaptures(backing[..len], keep);
    }

    /** The three checks before anything is retained. */
    method HasRoom(owner: nat, cost: nat) returns (room: bool)
      requires nextToken <= MAX64 && snapshotBytes >= 0
      ensures room <==> snapshotBytes + cost <= RETAINED_BYTES && |Owned(snapshots, owner)| < HANDLES && nextToken < MAX64
    {
      if cost > RETAINED_BYTES || snapshotBytes + cost > RETAINED_BYTES { return false; }
      var owned := CountOwned(owner);
      room := owned < HANDLES && nextToken != MAX64;
    }

    /** Give an admitted snapshot the next token, pin its pages and charge its bytes. */
    method Retain(s: Snapshot) returns (t: nat)
      requires Valid() && SnapshotOk(s) && nextToken < MAX64
      requires snapshotBytes + s.bytes <= RETAINED_BYTES && |Owned(snapshots, s.owner)| < HANDLES
      requires forall i | 0 <= i < |s.pages| :: s.pages[i].page in pages
      modifies this`snapshots, this`snapshotBytes, this`nextToken, this`taken, tracked`refs
      ensures Valid() && t == nextToken == old(nextToken) + 1 && snapshots == old(snapshots)[t := s]
      ensures taken == old(taken)[t := old(RowsOf(s.pages, |s.pages|))]
      ensures snapshotBytes == old(snapshotBytes) + s.bytes
    {
      ghost var rows := RowsOf(s.pages, |s.pages|);
      nextToken := nextToken + 1;
      Pin(s, tracked);
      snapshots := snapshots[nextToken := s];
      snapshotBytes := snapshotBytes + s.bytes;
      taken := taken[nextToken := rows];
      AddKeepsValid(s);
      t := nextToken;
    }

    twostate lemma AddKeepsValid(s: Snapshot)
      requires old(Valid()) && nextToken == old(nextToken) + 1 <= MAX64 && SnapshotOk(s)
      requires snapshots == old(snapshots)[nextToken := s] && snapshotBytes == old(snapshotBytes) + s.bytes <= RETAINED_BYTES
      requires taken == old(taken)[nextToken := old(RowsOf(s.pages, |s.pages|))] && |Owned(old(snapshots), s.owner)| < HANDLES
      requires unchanged(this`backing, this`len, this`pages, this`bytes, this`exhausted, this`dirty, this`tracked)
      requires forall i | 0 <= i < |s.pages| :: s.pages[i].page in pages
      requires forall p | p in tracked :: p.refs == old(p.refs) + if Holds(s, p) then 1 else 0
      requires forall p | p in tracked :: unchanged(p.backing)
      ensures Valid()
    {
      BudgetInsert(old(snapshots), old(snapshotBytes), nextToken, s);
      CountsAfterAdd(s);
      AnchoredInsert(old(snapshots), snapshots, nextToken, s, tracked, pages, backing);
      RowsAfterAdd(s);
    }

    twostate lemma RowsAfterAdd(s: Snapshot)
      requires old(Indexed()) && old(Stable()) && SnapshotOk(s) && snapshots == old(snapshots)[nextToken := s]
      requires taken == old(taken)[nextToken := old(RowsOf(s.pages, |s.pages|))] && nextToken !in old(taken)
      requires forall i | 0 <= i < |s.pages| :: s.pages[i].page in old(tracked)
      requires forall p | p in old(tracked) :: unchanged(p.backing)
      ensures forall t | t in snapshots :: t in taken && SnapshotOk(snapshots[t]) && Shows(t)
    {
      forall t | t in snapshots && t != nextToken ensures t in taken && SnapshotOk(snapshots[t]) && Shows(t) {
        assert old(Shows(t)) && Anchored(old(snapshots)[t], old(tracked), old(pages), old(backing));
      }
    }

    /** Adding one reference to each page of the new snapshot matches adding it. */
    twostate lemma CountsAfterAdd(s: Snapshot)
      requires old(Counted()) && nextToken !in old(snapshots) && snapshots == old(snapshots)[nextToken := s] && tracked == old(tracked)
      requires forall p | p in tracked :: p.refs == old(p.refs) + if Holds(s, p) then 1 else 0
      ensures Counted()
    {
      forall p | p in tracked ensures p.refs == |Holders(snapshots, p)| {
        HoldersInsert(old(snapshots), nextToken, s, p);
      }
    }

    /** Beside these retained snapshots of that total there is room for one more of the kept entries. */
    ghost predicate Fits(snaps: map<nat, Snapshot>, total: int, owner: nat, keep: set<nat>, nodes: seq<Entry>)
      requires len <= backing.Length
      reads this, backing
    {
      && !SeenExhausted(nodes)
      && total + Charge(Seen(nodes), keep, SeenBytes(nodes)) <= RETAINED_BYTES
      && |Owned(snaps, owner)| < HANDLES && nextToken < MAX64
    }

    /** A new handle of this owner that captures the kept entries; every snapshot ever taken keeps its rows. */
    twostate predicate Made(t: nat, owner: nat, now: int, new nodes: seq<Entry>, keep: set<nat>)
      reads this
    {
      && t == nextToken == old(nextToken) + 1 && t in snapshots && t in taken
      && snapshots[t].owner == owner && snapshots[t].expires == now + 60_000_000_000
      && taken == old(taken)[t := taken[t]] && Captures(taken[t], nodes, keep)
    }

    /** Bring the observation up to date and make a snapshot of it; None exactly when it does not fit. */
    method Capture(owner: nat, keep: set<nat>, nodes: seq<Entry>, now: int) returns (made: Option<nat>)
      requires Valid()
      modifies this, tracked`refs, backing
      ensures Valid()
      ensures old(tracked) <= tracked && fresh(tracked - old(tracked)) && (fresh(backing) || backing == old(backing))
      ensures made.Some? <==> old(Fits(snapshots, snapshotBytes, owner, keep, nodes))
      ensures made.None? ==> taken == old(taken) && nextToken == old(nextToken) && snapshots == old(snapshots)
      ensures made.Some? ==> Made(made.value, owner, now, old(Seen(nodes)), keep)
    {
      var available := AtCut(nodes);
      if !available { return None; }
      made := Create(owner, keep, now);
    }

    /** tree.dump once expired handles are gone and the limit is known to be legal. */
    method Answer(session: nat, handle: Option<nat>, offset: nat, size: nat, keep: set<nat>, nodes: seq<Entry>, now: int) returns (r: Outcome)
      requires Valid()
      modifies this, tracked`refs, backing
      ensures Valid() && r != InvalidParams
      ensures old(tracked) <= tracked && fresh(tracked - old(tracked)) && (fresh(backing) || backing == old(backing))
      ensures handle.Some? ==> snapshots == old(snapshots) && taken == old(taken) && nextToken == old(nextToken)
      ensures r == Expired <==> handle.Some? && (handle.value !in old(snapshots) || old(snapshots)[handle.value].owner != session || now >= old(snapshots)[handle.value].expires)
      ensures r == ResourceLimit <==> handle.None? && !old(Fits(snapshots, snapshotBytes, session, keep, nodes))
      ensures r == ResourceLimit ==> taken == old(taken) && nextToken == old(nextToken)
      ensures r.Listing? ==> r.token in taken && Chunk(r.rows, r.next) == PageAt(taken[r.token], offset, size)
      ensures r.Listing? ==> OnePage(r.rows, r.next, taken[r.token], offset, size)
      ensures r.Listing? && handle.Some? ==> r.token == handle.value
      ensures r.Listing? && handle.None? ==> Made(r.token, session, now, old(Seen(nodes)), keep)
    {
      var token := 0;
      if handle.Some? {
        token := handle.value;
        if token !in snapshots || snapshots[token].owner != session || now >= snapshots[token].expires { return Expired; }
      } else {
        var made := Capture(session, keep, nodes, now);
        if made.None? { return ResourceLimit; }
        token := made.value;
      }
      r := ReadPage(token, offset, size);
    }

    /**
     * driveTreeDump after parameter decoding. A listing is always a page of the rows its snapshot was taken with,
     * whether the handle was made by this call or long before; only an unexpired handle of the same session is read.
     * Each error is given exactly when its check fails.
     */
    method TreeDump(session: nat, handle: Option<nat>, offset: nat, limit: int, keep: set<nat>, nodes: seq<Entry>, now: int) returns (r: Outcome)
      requires Valid()
      modifies this, tracked`refs, backing
      ensures Valid()
      ensures old(tracked) <= tracked && fresh(tracked - old(tracked)) && (fresh(backing) || backing == old(backing))
      ensures forall t | t in old(taken) :: t in taken && taken[t] == old(taken)[t]
      ensures handle.Some? ==> snapshots == Surviving(old(snapshots), {}, now) && taken == old(taken)
      ensures r == InvalidParams <==> limit < 0 || limit > PAGE
      ensures r == Expired <==> 0 <= limit <= PAGE && handle.Some? && (handle.value !in old(snapshots) || old(snapshots)[handle.value].owner != session || now >= old(snapshots)[handle.value].expires)
      ensures r == ResourceLimit <==> 0 <= limit <= PAGE && handle.None? && !old(Fits(Surviving(snapshots, {}, now), RetainedBytes(Surviving(snapshots, {}, now), nextToken), session, keep, nodes))
      ensures r == ResourceLimit ==> taken == old(taken)
      ensures r.Listing? ==> r.token in taken && Chunk(r.rows, r.next) == PageAt(taken[r.token], offset, if limit == 0 then PAGE else limit)
      ensures r.Listing? ==> OnePage(r.rows, r.next, taken[r.token], offset, if limit == 0 then 256 else limit)
      ensures r.Listing? && handle.Some? ==> r.token == handle.value
      ensures r.Listing? && handle.None? ==> Made(r.token, session, now, old(Seen(nodes)), keep)
    {
      ghost var seen, size, full := Seen(nodes), SeenBytes(nodes), SeenExhausted(nodes);
      Cleanup(now);
      if limit < 0 || limit > PAGE { return InvalidParams; }
      assert seen == Seen(nodes) && size == SeenBytes(nodes) && full == SeenExhausted(nodes);
      TokensBelow();
      r := Answer(session, handle, offset, if limit == 0 then PAGE else limit, keep, nodes, now);
    }

    lemma TokensBelow()
      requires Valid()
      ensures snapshotBytes == RetainedBytes(snapshots, nextToken) && forall t | t in taken :: t <= nextToken
    {}

    lemma RetainedFacts(token: nat)
      requires Valid() && token in snapshots
      ensures SnapshotOk(snapshots[token]) && token in taken && |taken[token]| == snapshots[token].count
      ensures RowsOf(snapshots[token].pages, |snapshots[token].pages|) == taken[token]
    {
      assert Shows(token);
    }

    /** The page of a retained snapshot at an offset, and where to continue. */
    method ReadPage(token: nat, offset: nat, size: nat) returns (r: Outcome)
      requires Valid() && token in snapshots
      ensures r.Listing? && r.token == token && token in taken && Chunk(r.rows, r.next) == PageAt(taken[token], offset, size)
      ensures OnePage(r.rows, r.next, taken[token], offset, size)
    {
      var s := snapshots[token];
      RetainedFacts(token);
      var c := CutPage(s, offset, size, taken[token]);
      PageMeaning(taken[token], offset, size);
      r := Listing(token, c.rows, c.next);
    }
  }
}
