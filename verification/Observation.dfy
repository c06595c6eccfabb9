/**
 * Pinned tree observations (runtime/drive_observation.go, runtime/drive_methods_locate.go). The index of visible
 * nodes lives in one backing array cut into pages. A tree snapshot holds pages, not copies, so a refresh may write
 * the array in place only when no current page is held; otherwise it starts a new array.
 */
module Observation {
  import opened Machine

  const PAGE: nat := 256
  const RETAINED_BYTES: nat := 8 * 1024 * 1024
  const HANDLES: nat := 8
  const LIFETIME: nat := 60_000_000_000

  datatype Layer = Layer(band: string, order: string, mount: string)
  datatype Row = Row(path: string, testID: string, kind: string, role: string, name: string, bounds: Option<int>, layer: Option<Layer>)
  datatype Entry = Entry(id: nat, parent: nat, depth: int, row: Row)

  function RowBytes(r: Row): nat {
    128 + |r.path| + |r.testID| + |r.kind| + |r.role| + |r.name| + (if r.bounds.Some? then 32 else 0)
    + if r.layer.Some? then |r.layer.value.band| + |r.layer.value.order| + |r.layer.value.mount| else 0
  }

  function SumRowBytes(nodes: seq<Entry>, n: nat): nat
    requires n <= |nodes|
  {
    if n == 0 then 0 else SumRowBytes(nodes, n - 1) + RowBytes(nodes[n - 1].row)
  }

  lemma {:induction false} SumRowBytesGrows(nodes: seq<Entry>, m: nat, n: nat)
    requires m <= n <= |nodes|
    ensures SumRowBytes(nodes, m) <= SumRowBytes(nodes, n)
    decreases n
  {
    if m < n { SumRowBytesGrows(nodes, m, n - 1); }
  }

  function PageCount(len: nat): nat { (len + PAGE - 1) / PAGE }

  /** A view of the backing array and the number of snapshots holding it. */
  class Page {
    const backing: array<Entry>
    const lo: nat
    const hi: nat
    var refs: int

    constructor (backing: array<Entry>, lo: nat, hi: nat)
      ensures this.backing == backing && this.lo == lo && this.hi == hi && refs == 0
    {
      this.backing, this.lo, this.hi, this.refs := backing, lo, hi, 0;
    }
  }

  datatype Selection = Selection(page: Page, indices: seq<nat>)
  datatype Snapshot = Snapshot(owner: nat, pages: seq<Selection>, count: nat, bytes: nat, expires: int)

  // ----- what a snapshot shows -----

  ghost predicate SelectionOk(s: Selection) {
    && s.page.lo <= s.page.hi <= s.page.backing.Length
    && forall i | 0 <= i < |s.indices| :: s.page.lo + s.indices[i] < s.page.hi
  }

  ghost predicate AllOk(pages: seq<Selection>) {
    forall i | 0 <= i < |pages| :: SelectionOk(pages[i])
  }

  ghost predicate DistinctPages(pages: seq<Selection>) {
    forall i, j | 0 <= i < j < |pages| :: pages[i].page != pages[j].page
  }

  function Count(pages: seq<Selection>, n: nat): nat
    requires n <= |pages|
  {
    if n == 0 then 0 else Count(pages, n - 1) + |pages[n - 1].indices|
  }

  function SelectionBytes(pages: seq<Selection>, n: nat): nat
    requires n <= |pages|
  {
    if n == 0 then 0 else SelectionBytes(pages, n - 1) + 2 * |pages[n - 1].indices| + 32
  }

  ghost function SelectedRows(s: Selection): (r: seq<Row>)
    requires SelectionOk(s)
    reads s.page.backing
  {
    seq(|s.indices|, i requires 0 <= i < |s.indices| reads s.page.backing => s.page.backing[s.page.lo + s.indices[i]].row)
  }

  /** The rows the first n pages of a snapshot read from the heap now. */
  ghost function RowsOf(pages: seq<Selection>, n: nat): (r: seq<Row>)
    requires n <= |pages| && AllOk(pages)
    reads set i | 0 <= i < |pages| :: pages[i].page.backing
    ensures |r| == Count(pages, n)
  {
    if n == 0 then [] else RowsOf(pages, n - 1) + SelectedRows(pages[n - 1])
  }

  lemma {:induction false} RowsPrefix(a: seq<Selection>, b: seq<Selection>, n: nat)
    requires AllOk(a) && AllOk(b) && n <= |a| && n <= |b| && forall i | 0 <= i < n :: a[i] == b[i]
    ensures RowsOf(a, n) == RowsOf(b, n) && Count(a, n) == Count(b, n) && SelectionBytes(a, n) == SelectionBytes(b, n)
  {
    if n > 0 { RowsPrefix(a, b, n - 1); }
  }

  /** Row j of page k sits in the whole listing after the rows of the pages before it. */
  lemma {:induction false} RowAt(pages: seq<Selection>, n: nat, k: nat, j: nat)
    requires AllOk(pages) && k < n <= |pages| && j < |pages[k].indices|
    ensures Count(pages, k) + j < Count(pages, n)
    ensures RowsOf(pages, n)[Count(pages, k) + j] == SelectedRows(pages[k])[j]
  {
    if k < n - 1 { RowAt(pages, n - 1, k, j); }
  }

  /** The rows of the kept positions below n, in order: what a snapshot is meant to capture. */
  function Kept(nodes: seq<Entry>, keep: set<nat>, n: nat): seq<Row>
    requires n <= |nodes|
  {
    if n == 0 then [] else Kept(nodes, keep, n - 1) + if n - 1 in keep then [nodes[n - 1].row] else []
  }

  /** ps lists, in ascending order, exactly the kept positions below n. */
  ghost predicate KeptPositions(keep: set<nat>, n: nat, ps: seq<nat>) {
    && (forall i, j | 0 <= i < j < |ps| :: ps[i] < ps[j])
    && (forall i | 0 <= i < |ps| :: ps[i] < n && ps[i] in keep)
    && (forall p: nat | p < n && p in keep :: p in ps)
  }

  ghost predicate RowsAt(rows: seq<Row>, nodes: seq<Entry>, ps: seq<nat>) {
    |rows| == |ps| && forall i | 0 <= i < |ps| :: ps[i] < |nodes| && rows[i] == nodes[ps[i]].row
  }

  /** The rows are those of the kept positions, each once, in order of position. */
  ghost predicate Captures(rows: seq<Row>, nodes: seq<Entry>, keep: set<nat>) {
    exists ps: seq<nat> :: KeptPositions(keep, |nodes|, ps) && RowsAt(rows, nodes, ps)
  }

  lemma {:induction false} KeptAt(nodes: seq<Entry>, keep: set<nat>, n: nat) returns (ps: seq<nat>)
    requires n <= |nodes|
    ensures KeptPositions(keep, n, ps) && RowsAt(Kept(nodes, keep, n), nodes, ps)
  {
    ps := [];
    if n > 0 {
      var before := KeptAt(nodes, keep, n - 1);
      ps := before + if n - 1 in keep then [n - 1] else [];
      assert forall i | 0 <= i < |before| :: ps[i] == before[i];
    }
  }

  lemma KeptCaptures(nodes: seq<Entry>, keep: set<nat>)
    ensures Captures(Kept(nodes, keep, |nodes|), nodes, keep)
  {
    var ps := KeptAt(nodes, keep, |nodes|);
  }

  /** Page k's rows are the segment of the whole listing that starts after the pages before it. */
  ghost predicate Segment(all: seq<Row>, position: nat, sel: Selection)
    requires SelectionOk(sel)
    reads sel.page.backing
  {
    position + |sel.indices| <= |all| && forall j | 0 <= j < |sel.indices| :: all[position + j] == sel.page.backing[sel.page.lo + sel.indices[j]].row
  }

  ghost predicate SegmentAt(all: seq<Row>, pages: seq<Selection>, k: nat)
    requires AllOk(pages) && k < |pages|
    reads pages[k].page.backing
  {
    Segment(all, Count(pages, k), pages[k])
  }

  lemma PageSegment(pages: seq<Selection>, k: nat)
    requires AllOk(pages) && k < |pages|
    ensures Segment(RowsOf(pages, |pages|), Count(pages, k), pages[k])
    ensures Count(pages, k + 1) == Count(pages, k) + |pages[k].indices|
  {
    var all := RowsOf(pages, |pages|);
    forall j | 0 <= j < |pages[k].indices|
      ensures Count(pages, k) + j < |all| && all[Count(pages, k) + j] == pages[k].page.backing[pages[k].page.lo + pages[k].indices[j]].row
    {
      RowAt(pages, |pages|, k, j);
      assert SelectionOk(pages[k]);
    }
    CountGrows(pages, k + 1, |pages|);
  }

  lemma {:induction false} CountGrows(pages: seq<Selection>, m: nat, n: nat)
    requires m <= n <= |pages|
    ensures Count(pages, m) <= Count(pages, n)
    decreases n
  {
    if m < n { CountGrows(pages, m, n - 1); }
  }

  method ScanPage(sel: Selection, start: nat, end: nat, from: nat, before: seq<Row>, ghost all: seq<Row>) returns (rows: seq<Row>)
    requires SelectionOk(sel) && Segment(all, from, sel) && Scanned(all, start, end, from, before)
    ensures Scanned(all, start, end, from + |sel.indices|, rows)
  {
    rows := before;
    var position := from;
    for j := 0 to |sel.indices|
      invariant position == from + j && Scanned(all, start, end, position, rows)
    {
      ScanStep(all, start, end, position, rows);
      if start <= position < end {
        rows := rows + [sel.page.backing[sel.page.lo + sel.indices[j]].row];
      }
      position := position + 1;
    }
  }

  method ScanPages(pages: seq<Selection>, start: nat, end: nat, ghost all: seq<Row>) returns (rows: seq<Row>)
    requires AllOk(pages) && forall k | 0 <= k < |pages| :: SegmentAt(all, pages, k)
    requires Scanned(all, start, end, 0, [])
    ensures Scanned(all, start, end, Count(pages, |pages|), rows)
  {
    rows := [];
    var position := 0;
    for k := 0 to |pages|
      invariant position == Count(pages, k) && Scanned(all, start, end, position, rows)
    {
      assert SegmentAt(all, pages, k);
      rows := ScanPage(pages[k], start, end, position, rows, all);
      position := position + |pages[k].indices|;
    }
  }

  /** treeSnapshot.rows: scan the page directory and copy the rows at positions [start, end). */
  method Rows(s: Snapshot, start: nat, end: nat, ghost all: seq<Row>) returns (rows: seq<Row>)
    requires AllOk(s.pages) && s.count == Count(s.pages, |s.pages|) && start <= end <= s.count && all == RowsOf(s.pages, |s.pages|)
    ensures rows == all[start..end]
  {
    forall k | 0 <= k < |s.pages| ensures SegmentAt(all, s.pages, k) {
      PageSegment(s.pages, k);
    }
    rows := ScanPages(s.pages, start, end, all);
  }

  ghost predicate Scanned(all: seq<Row>, start: nat, end: nat, position: nat, rows: seq<Row>) {
    && start <= end <= |all| && position <= |all|
    && |rows| == (if position <= start then 0 else Min(position, end) - start)
    && forall i | 0 <= i < |rows| :: rows[i] == all[start + i]
  }

  lemma ScanStep(all: seq<Row>, start: nat, end: nat, position: nat, rows: seq<Row>)
    requires Scanned(all, start, end, position, rows) && position < |all|
    ensures Scanned(all, start, end, position + 1, if start <= position < end then rows + [all[position]] else rows)
  {}

  // ----- paging -----

  datatype Chunk = Chunk(rows: seq<Row>, next: Option<nat>)

  function PageAt(all: seq<Row>, offset: nat, limit: nat): Chunk {
    var from := Min(offset, |all|);
    var end := Min(|all|, from + limit);
    Chunk(all[from..end], if end < |all| then Some(end) else None)
  }

  /** At most `limit` rows of the listing from the offset on; full and followed by its successor, or reaching the end. */
  ghost predicate OnePage(rows: seq<Row>, next: Option<nat>, all: seq<Row>, offset: nat, limit: nat) {
    && |rows| <= limit
    && (forall i | 0 <= i < |rows| :: offset + i < |all| && rows[i] == all[offset + i])
    && (next.Some? ==> |rows| == limit && next.value == offset + limit < |all|)
    && (next.None? ==> |all| <= offset + |rows|)
  }

  lemma PageMeaning(all: seq<Row>, offset: nat, limit: nat)
    ensures OnePage(PageAt(all, offset, limit).rows, PageAt(all, offset, limit).next, all, offset, limit)
  {
    if offset >= |all| {
      assert PageAt(all, offset, limit).rows == [];
    }
  }

  /** Follow `next` from an offset, asking for the given limits in turn, until there is no next or no more requests. */
  function Follow(all: seq<Row>, offset: nat, limits: seq<nat>, i: nat): Chunk
    requires i <= |limits|
    decreases |limits| - i
  {
    if i == |limits| then Chunk([], Some(offset))
    else
      var c := PageAt(all, offset, limits[i]);
      if c.next.None? then c
      else
        var rest := Follow(all, c.next.value, limits, i + 1);
        Chunk(c.rows + rest.rows, rest.next)
  }

  lemma {:induction false} FollowReads(all: seq<Row>, offset: nat, limits: seq<nat>, i: nat)
    requires i <= |limits| && offset <= |all| && forall k | 0 <= k < |limits| :: 1 <= limits[k] <= PAGE
    ensures var r := Follow(all, offset, limits, i);
      (r.next.None? ==> r.rows == all[offset..]) && (r.next.Some? ==> |limits| - i + offset <= r.next.value <= |all| && r.rows == all[offset..r.next.value])
    decreases |limits| - i
  {
    if i < |limits| {
      var c := PageAt(all, offset, limits[i]);
      if c.next.Some? { FollowReads(all, c.next.value, limits, i + 1); }
    }
  }

  /**
   * Whatever limits in [1, 256] the client uses, when `next` runs out it has read every row once, in order, and
   * it does run out within one request per row (one request for an empty listing).
   */
  lemma PagingReadsEverythingOnce(all: seq<Row>, limits: seq<nat>)
    requires forall k | 0 <= k < |limits| :: 1 <= limits[k] <= PAGE
    ensures Follow(all, 0, limits, 0).next.None? ==> Follow(all, 0, limits, 0).rows == all
    ensures |limits| > |all| ==> Follow(all, 0, limits, 0).next.None?
  {
    FollowReads(all, 0, limits, 0);
  }

  // ----- counting holders and bytes -----

  ghost predicate Holds(s: Snapshot, p: Page) {
    exists i :: 0 <= i < |s.pages| && s.pages[i].page == p
  }

  ghost function Holders(snapshots: map<nat, Snapshot>, p: Page): set<nat> {
    set t | t in snapshots && Holds(snapshots[t], p)
  }

  function Owned(snapshots: map<nat, Snapshot>, owner: nat): set<nat> {
    set t | t in snapshots && snapshots[t].owner == owner
  }

  /** Retained bytes of the snapshots with tokens 1..n. */
  function RetainedBytes(snapshots: map<nat, Snapshot>, n: nat): nat {
    if n == 0 then 0 else RetainedBytes(snapshots, n - 1) + if n in snapshots then snapshots[n].bytes else 0
  }

  lemma {:induction false} RetainedInsert(m: map<nat, Snapshot>, t: nat, s: Snapshot, n: nat)
    requires t !in m
    ensures RetainedBytes(m[t := s], n) == RetainedBytes(m, n) + if 0 < t <= n then s.bytes else 0
  {
    if n > 0 { RetainedInsert(m, t, s, n - 1); }
  }

  lemma InsertThenRemove(m: map<nat, Snapshot>, t: nat)
    requires t in m
    ensures m == (m - {t})[t := m[t]]
  {}

  lemma HoldersInsert(m: map<nat, Snapshot>, t: nat, s: Snapshot, p: Page)
    requires t !in m
    ensures |Holders(m[t := s], p)| == |Holders(m, p)| + if Holds(s, p) then 1 else 0
  {
    assert Holders(m[t := s], p) == Holders(m, p) + if Holds(s, p) then {t} else {};
  }

  lemma OwnedInsert(m: map<nat, Snapshot>, t: nat, s: Snapshot, owner: nat)
    requires t !in m
    ensures |Owned(m[t := s], owner)| == |Owned(m, owner)| + if s.owner == owner then 1 else 0
  {
    assert Owned(m[t := s], owner) == Owned(m, owner) + if s.owner == owner then {t} else {};
  }

  lemma HoldersAtLeastOne(m: map<nat, Snapshot>, t: nat, p: Page)
    requires t in m && Holds(m[t], p)
    ensures |Holders(m, p)| >= 1
  {
    assert t in Holders(m, p);
  }

  /** Everything about the retained snapshots that does not depend on array contents. */
  ghost predicate SnapshotOk(s: Snapshot) {
    AllOk(s.pages) && DistinctPages(s.pages) && s.count == Count(s.pages, |s.pages|)
  }

  datatype Outcome = InvalidParams | Expired | ResourceLimit | Listing(token: nat, rows: seq<Row>, next: Option<nat>)
}
