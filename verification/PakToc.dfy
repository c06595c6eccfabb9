/**
 * Lookup in a pak table of contents (assets/pak.go, assets/pakfs.go). The table is sorted by the first eight
 * bytes of the asset identifier only; prefixes may collide and identifiers may repeat with other LODs.
 */
module PakToc {
  import opened Machine

  newtype byte = x: int | 0 <= x < 256
  type AssetID = id: seq<byte> | |id| == 16 witness seq(16, _ => 0 as byte)

  datatype Entry = Entry(id: AssetID, lod: nat, offset: nat, compressedSize: nat)
  datatype Lookup = Found(index: nat) | NotExist | Closed

  /** The big-endian uint64 of the first n bytes. */
  function PrefixTo(id: AssetID, n: nat): nat
    requires n <= 8
  {
    if n == 0 then 0 else PrefixTo(id, n - 1) * 256 + id[n - 1] as nat
  }

  function Prefix(id: AssetID): nat {
    PrefixTo(id, 8)
  }

  ghost predicate SortedByPrefix(toc: seq<Entry>) {
    forall i, j | 0 <= i < j < |toc| :: Prefix(toc[i].id) <= Prefix(toc[j].id)
  }

  predicate Hit(e: Entry, id: AssetID, lod: int) {
    e.id == id && e.lod == lod
  }

  /** What a linear scan from the front returns. */
  function Scan(toc: seq<Entry>, id: AssetID, lod: int, i: nat): Lookup
    requires i <= |toc|
    decreases |toc| - i
  {
    if i == |toc| then NotExist else if Hit(toc[i], id, lod) then Found(i) else Scan(toc, id, lod, i + 1)
  }

  lemma {:induction false} ScanSkips(toc: seq<Entry>, id: AssetID, lod: int, i: nat, j: nat)
    requires i <= j <= |toc| && forall k | i <= k < j :: !Hit(toc[k], id, lod)
    ensures Scan(toc, id, lod, i) == Scan(toc, id, lod, j)
    decreases j - i
  {
    if i < j {
      ScanSkips(toc, id, lod, i + 1, j);
    }
  }

  /** tocSearch: some entry with exactly this identifier, reported exactly when there is one. */
  method TocSearch(toc: seq<Entry>, id: AssetID) returns (i: nat, ok: bool)
    requires SortedByPrefix(toc)
    ensures ok ==> i < |toc| && toc[i].id == id
    ensures !ok ==> forall k | 0 <= k < |toc| :: toc[k].id != id
  {
    var key := Prefix(id);
    var lo, hi := 0, |toc|;
    while lo < hi
      invariant 0 <= lo <= hi <= |toc|
      invariant forall k | 0 <= k < lo :: Prefix(toc[k].id) < key
      invariant forall k | hi <= k < |toc| :: Prefix(toc[k].id) > key
    {
      var mid := (lo + hi) / 2;
      var midKey := Prefix(toc[mid].id);
      if midKey < key {
        lo := mid + 1;
      } else if midKey > key {
        hi := mid;
      } else {
        i, ok := SearchCluster(toc, id, lo, hi, mid);
        return;
      }
    }
    return 0, false;
  }

  method SearchCluster(toc: seq<Entry>, id: AssetID, lo: nat, hi: nat, mid: nat) returns (i: nat, ok: bool)
    requires SortedByPrefix(toc) && lo <= mid < hi <= |toc| && Prefix(toc[mid].id) == Prefix(id)
    requires forall k | 0 <= k < lo :: Prefix(toc[k].id) < Prefix(id)
    requires forall k | hi <= k < |toc| :: Prefix(toc[k].id) > Prefix(id)
    ensures ok ==> i < |toc| && toc[i].id == id
    ensures !ok ==> forall k | 0 <= k < |toc| :: toc[k].id != id
  {
    var key := Prefix(id);
    var left := mid;
    while left > lo && Prefix(toc[left - 1].id) == key
      invariant lo <= left <= mid && Prefix(toc[left].id) == key
    {
      left := left - 1;
    }
    i := left;
    while i < hi && Prefix(toc[i].id) == key
      invariant left <= i <= hi
      invariant forall k | 0 <= k < i :: toc[k].id != id
    {
      if toc[i].id == id { return i, true; }
      i := i + 1;
    }
    return 0, false;
  }

  /**
   * findEntry returns exactly what the linear scan for (id, lod) would: its first matching entry, or
   * not-found exactly when the scan finds none.
   */
  method FindEntry(toc: seq<Entry>, closed: bool, id: AssetID, lod: int) returns (r: Lookup)
    requires SortedByPrefix(toc)
    ensures closed ==> r == Closed
    ensures !closed ==> r == Scan(toc, id, lod, 0)
    ensures !closed ==> r.Found? || r.NotExist?
    ensures r.Found? ==> r.index < |toc| && toc[r.index].id == id && toc[r.index].lod == lod
    ensures r.Found? ==> forall k | 0 <= k < r.index :: toc[k].id != id || toc[k].lod != lod
    ensures r.NotExist? ==> forall k | 0 <= k < |toc| :: toc[k].id != id || toc[k].lod != lod
  {
    ScanIsFirst(toc, id, lod, 0);
    if closed { return Closed; }
    if |toc| == 0 { return NotExist; }
    var idx, ok := TocSearch(toc, id);
    if !ok {
      ScanSkips(toc, id, lod, 0, |toc|);
      return NotExist;
    }
    var prefix := Prefix(toc[idx].id);
    var left := idx;
    while left > 0 && Prefix(toc[left - 1].id) == prefix
      invariant 0 <= left <= idx && Prefix(toc[left].id) == prefix
    {
      left := left - 1;
    }
    var right := idx + 1;
    while right < |toc| && Prefix(toc[right].id) == prefix
      invariant idx < right <= |toc|
    {
      right := right + 1;
    }
    ScanSkips(toc, id, lod, 0, left);
    var i := left;
    while i < right
      invariant left <= i <= right
      invariant Scan(toc, id, lod, 0) == Scan(toc, id, lod, i)
    {
      if toc[i].id == id && toc[i].lod == lod { return Found(i); }
      i := i + 1;
    }
    ScanSkips(toc, id, lod, right, |toc|);
    r := NotExist;
  }

  /** Scan is the first match: an index nothing before which matches, or nothing at all. */
  lemma {:induction false} ScanIsFirst(toc: seq<Entry>, id: AssetID, lod: int, i: nat)
    requires i <= |toc|
    ensures
      var r := Scan(toc, id, lod, i);
      && (r.Found? <==> exists k | i <= k < |toc| :: Hit(toc[k], id, lod))
      && (r.Found? ==> i <= r.index < |toc| && Hit(toc[r.index], id, lod) && forall k | i <= k < r.index :: !Hit(toc[k], id, lod))
    decreases |toc| - i
  {
    if i < |toc| {
      ScanIsFirst(toc, id, lod, i + 1);
    }
  }

  /** The byte-by-byte prefix stays a uint64, and equal prefixes mean equal leading bytes. */
  lemma {:induction false} PrefixInjective(a: AssetID, b: AssetID, n: nat)
    requires n <= 8
    ensures PrefixTo(a, n) == PrefixTo(b, n) <==> a[..n] == b[..n]
  {
    if n > 0 {
      PrefixInjective(a, b, n - 1);
      assert a[..n] == a[..n - 1] + [a[n - 1]] && b[..n] == b[..n - 1] + [b[n - 1]];
    }
  }

  /** The leading n bytes of a come before those of b: smaller at the first byte that differs. */
  ghost predicate BytesBefore(a: AssetID, b: AssetID, n: nat)
    requires n <= 8
  {
    exists k: nat | k < n :: a[..k] == b[..k] && a[k] < b[k]
  }

  /** Prefixes compare as the leading bytes do, first byte first. */
  lemma {:induction false} PrefixIsLexicographic(a: AssetID, b: AssetID, n: nat)
    requires n <= 8
    ensures PrefixTo(a, n) < PrefixTo(b, n) <==> BytesBefore(a, b, n)
  {
    if n > 0 {
      PrefixIsLexicographic(a, b, n - 1);
      PrefixInjective(a, b, n - 1);
      assert BytesBefore(a, b, n) <==> BytesBefore(a, b, n - 1) || (a[..n - 1] == b[..n - 1] && a[n - 1] < b[n - 1]);
    }
  }

  /** readBlock: the entry's bytes, or nothing when the uint64 range leaves the file or wraps. */
  function ReadBlock<T>(data: seq<T>, e: Entry): (r: seq<T>)
    requires |data| <= MAX64 && e.offset <= MAX64 && e.compressedSize < 0x1_0000_0000
    ensures e.offset + e.compressedSize <= |data| ==> r == data[e.offset..e.offset + e.compressedSize]
    ensures e.offset + e.compressedSize > |data| ==> r == []
  {
    var end := if e.offset + e.compressedSize > MAX64 then e.offset + e.compressedSize - (MAX64 + 1) else e.offset + e.compressedSize;
    if |data| == 0 || e.offset > |data| || end > |data| || end < e.offset then []
    else data[e.offset..end]
  }
}
