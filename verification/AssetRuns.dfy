/**
 * A run of the asset cache (assets/cache.go) in which a node left behind by a device loss takes its successor out of the
 * table: a GPU-only level is tracked, the device is lost, the level is tracked again, and the cache evicts.
 */
module AssetRuns {
  import opened LodHeap
  import opened AssetCache
  import opened AssetCaches

  const LEVEL := Key(7, 0)
  const OTHER := Key(8, 0)
  const FIRST := Node(0, LEVEL, 1, 0, 10, 1)
  /** The node left behind by the device loss, another level, and the first level tracked again. */
  const STALE := Node(0, LEVEL, 1, 0, 0, 0)
  const MIDDLE := Node(1, OTHER, 2, 60, 0, 0)
  const AGAIN := Node(2, LEVEL, 3, 40, 0, 0)

  lemma SingleNode(h: Heap, entries: map<Key, nat>, x: Node)
    requires Linked(entries, h) && multiset(h.items) == multiset{x} && Live(entries, h) == map[x.key := x]
    ensures h.items == [x] && entries == map[x.key := x.node]
  {
    assert |h.items| == |multiset(h.items)| == 1 && h.items[0] in multiset(h.items);
    assert entries.Keys == Live(entries, h).Keys;
    assert At(h, x.key, entries[x.key]);
  }

  lemma LossOfFirst(now: seq<Node>)
    requires SweptTo(map[LEVEL := 0], [FIRST], {}, now)
    ensures now == [STALE] && AfterLoss(map[LEVEL := FIRST], {}) == map[] && !NoGpuOnly(map[LEVEL := FIRST], {})
  {
    assert GpuOnly(map[LEVEL := FIRST][LEVEL]);
    assert now[0] == AfterSweep(map[LEVEL := 0], {}, [FIRST][0]);
  }

  /** A GPU-only level in an otherwise empty cache. */
  method GpuOnlyLevel() returns (c: Cache)
    ensures fresh(c) && c.Valid() && c.Exact() && c.Levels() == map[LEVEL := FIRST] && c.entries == map[LEVEL := 0] && c.heap.items == [FIRST]
    ensures c.nextNode == 1 && c.usedBytes == 0 && c.budgetBytes == 50 && c.gpuBudget == 100 && c.deviceGeneration == 0
  {
    c := new Cache(50, 100);
    c.TrackLOD(LEVEL, 0, 10, 1, 1);
    SingleNode(c.heap, c.entries, FIRST);
  }

  /** A device loss then leaves a cleared node with the old key that the table no longer lists. */
  method DeviceLossLeavesStaleNode() returns (c: Cache)
    ensures fresh(c) && c.Valid() && !c.Exact() && c.Levels() == map[] && c.heap.items == [STALE]
    ensures c.nextNode == 1 && c.usedBytes == 0 && c.gpuUsed == 0 && c.budgetBytes == 50 && c.gpuBudget == 100
  {
    c := GpuOnlyLevel();
    var _ := c.CheckDeviceGeneration(1);
    LossOfFirst(c.heap.items);
    assert Gpu([STALE], 1) == 0;
  }

  /** Another level is tracked, and then the lost one again. */
  method TrackedAgain() returns (c: Cache)
    ensures fresh(c) && c.Valid() && c.Levels() == map[OTHER := MIDDLE, LEVEL := AGAIN] && multiset(c.heap.items) == multiset{STALE, MIDDLE, AGAIN}
    ensures c.usedBytes == 100 && c.gpuUsed == 0 && c.budgetBytes == 50 && c.gpuBudget == 100
  {
    c := DeviceLossLeavesStaleNode();
    assert c.entries.Keys == c.Levels().Keys;
    c.TrackLOD(OTHER, 60, 0, 0, 2);
    assert c.entries.Keys == {OTHER};
    c.TrackLOD(LEVEL, 40, 0, 0, 3);
  }

  /** An unpinned node left behind does not come before a victim. */
  lemma LeftIsYounger(victims: seq<Node>, now: seq<Node>, x: Node, y: Node)
    requires LeastRecentlyUsed(map[], victims, now) && y in multiset(victims) && x in multiset(now)
    ensures Leq(y, x)
  {
    var m :| 0 <= m < |now| && now[m] == x;
    var i :| 0 <= i < |victims| && victims[i] == y;
    assert !Pinned(map[], now[m].key);
  }

  ghost predicate OfThree(now: seq<Node>, victims: seq<Node>) {
    LeastRecentlyUsed(map[], victims, now) && multiset(now) + multiset(victims) == multiset{STALE, MIDDLE, AGAIN}
  }

  lemma LastIsYoungest(victims: seq<Node>, now: seq<Node>)
    requires OfThree(now, victims) && AGAIN in multiset(victims)
    ensures victims[|victims| - 1] == AGAIN
  {
    var i :| 0 <= i < |victims| && victims[i] == AGAIN;
    var last := victims[|victims| - 1];
    assert last in multiset(victims);
    assert last in multiset(now) + multiset(victims);
    assert i == |victims| - 1 || Leq(AGAIN, last);
  }

  lemma NothingLeft(victims: seq<Node>, now: seq<Node>)
    requires OfThree(now, victims) && AGAIN in multiset(victims)
    ensures now == []
  {
    if now != [] {
      var x := now[0];
      assert x in multiset(now);
      assert x in multiset(now) + multiset(victims);
      LeftIsYounger(victims, now, x, AGAIN);
    }
  }

  /** A heap with the two sized nodes counts 100 bytes. */
  lemma SizesTogether(now: seq<Node>, victims: seq<Node>)
    requires OfThree(now, victims) && MIDDLE in multiset(now) && AGAIN in multiset(now)
    ensures Used(now, |now|) == 100
  {
    forall x ensures multiset(now)[x] + multiset(victims)[x] == multiset{STALE, MIDDLE, AGAIN}[x] {
      assert (multiset(now) + multiset(victims))[x] == multiset{STALE, MIDDLE, AGAIN}[x];
    }
    if STALE in multiset(now) {
      assert multiset(now) == multiset([MIDDLE, AGAIN, STALE]);
      UsedSame(now, [MIDDLE, AGAIN, STALE]);
      ThreeSizes();
    } else {
      assert multiset(now) == multiset([MIDDLE, AGAIN]);
      UsedSame(now, [MIDDLE, AGAIN]);
      TwoSizes();
    }
  }

  lemma TwoSizes()
    ensures Used([MIDDLE, AGAIN], 2) == 100
  {
    assert Used([MIDDLE, AGAIN], 1) == 60;
  }

  lemma ThreeSizes()
    ensures Used([MIDDLE, AGAIN, STALE], 3) == 100
  {
    assert Used([MIDDLE, AGAIN, STALE], 1) == 60;
    assert Used([MIDDLE, AGAIN, STALE], 2) == 100;
  }

  /** What the eviction must have taken: the two older nodes, and not the youngest. */
  lemma TwoVictims(victims: seq<Node>, now: seq<Node>)
    requires OfThree(now, victims) && (Used(now, |now|) <= 50 || now == [])
    requires victims != [] ==> Used(now, |now|) + victims[|victims| - 1].size > 50
    ensures now == [AGAIN] && STALE in multiset(victims) && MIDDLE in multiset(victims)
  {
    assert |now| + |victims| == |multiset(now) + multiset(victims)| == 3;
    if AGAIN in multiset(victims) {
      LastIsYoungest(victims, now);
      NothingLeft(victims, now);
    } else {
      assert AGAIN in multiset(now) + multiset(victims);
      if MIDDLE in multiset(now) {
        SizesTogether(now, victims);
      } else {
        assert MIDDLE in multiset(now) + multiset(victims) && STALE in multiset(now) + multiset(victims);
        if STALE in multiset(now) { LeftIsYounger(victims, now, STALE, MIDDLE); }
        OnlyAgain(victims, now);
      }
    }
  }

  lemma OnlyAgain(victims: seq<Node>, now: seq<Node>)
    requires OfThree(now, victims) && STALE in multiset(victims) && MIDDLE in multiset(victims) && AGAIN !in multiset(victims)
    ensures now == [AGAIN]
  {
    assert multiset(now) == multiset{AGAIN} by {
      forall x ensures multiset(now)[x] == multiset{AGAIN}[x] {
        assert (multiset(now) + multiset(victims))[x] == multiset{STALE, MIDDLE, AGAIN}[x];
      }
    }
    assert |now| == |multiset(now)| == 1 && now[0] in multiset(now);
  }

  lemma NobodyPinned(now: seq<Node>)
    ensures AllPinned(map[], now) ==> now == []
  {
    if now != [] { assert !Pinned(map[], now[0].key); }
  }

  lemma BothKeysGone(victims: seq<Node>, levels: map<Key, Node>)
    requires STALE in multiset(victims) && MIDDLE in multiset(victims) && levels.Keys == {LEVEL, OTHER}
    ensures levels - KeysOf(victims) == map[]
  {
    var i :| 0 <= i < |victims| && victims[i] == STALE;
    var j :| 0 <= j < |victims| && victims[j] == MIDDLE;
    assert victims[i].key in KeysOf(victims) && victims[j].key in KeysOf(victims);
  }

  lemma RunEnds(c: Cache, items: seq<Node>, levels: map<Key, Node>, victims: seq<Node>)
    requires c.Valid() && c.Evicted(map[], items, levels, victims) && c.LastNeeded(victims, 50, 100) && c.gpuBudget == 100
    requires multiset(items) == multiset{STALE, MIDDLE, AGAIN} && levels.Keys == {LEVEL, OTHER}
    requires (c.usedBytes <= 50 && c.gpuUsed <= 100) || AllPinned(map[], c.heap.items)
    ensures c.Levels() == map[] && c.usedBytes == 40 && c.heap.items == [AGAIN]
  {
    NoGpuBytes(items, c.heap.items, victims);
    NobodyPinned(c.heap.items);
    TwoVictims(victims, c.heap.items);
    BothKeysGone(victims, levels);
    assert Used([AGAIN], 1) == 40;
  }

  method EvictTracked(c: Cache)
    requires c.Valid() && c.Levels().Keys == {LEVEL, OTHER} && multiset(c.heap.items) == multiset{STALE, MIDDLE, AGAIN}
    requires c.budgetBytes == 50 && c.gpuBudget == 100
    modifies c
    ensures c.Valid() && c.Levels() == map[] && c.usedBytes == 40 && c.heap.items == [AGAIN]
  {
    ghost var items, levels := c.heap.items, c.Levels();
    var victims := c.EvictIfNeeded(map[]);
    RunEnds(c, items, levels, victims);
  }

  /** The eviction stops within budget, the bytes of the level tracked again stay counted, and the table is empty. */
  method StaleEvictionRun() returns (c: Cache)
    ensures c.Valid() && c.Levels() == map[] && c.usedBytes == 40 && c.heap.items == [AGAIN]
  {
    c := TrackedAgain();
    EvictTracked(c);
  }

  lemma NoGpuBytes(items: seq<Node>, now: seq<Node>, victims: seq<Node>)
    requires multiset(items) == multiset{STALE, MIDDLE, AGAIN} && multiset(items) == multiset(now) + multiset(victims)
    ensures Gpu(now, |now|) == 0 && forall i | 0 <= i < |victims| :: victims[i].gpu == 0
  {
    forall i | 0 <= i < |victims| ensures victims[i].gpu == 0 {
      assert victims[i] in multiset(victims);
      assert victims[i] in multiset(now) + multiset(victims);
    }
    forall i | 0 <= i < |now| ensures now[i].gpu == 0 {
      assert now[i] in multiset(now);
      assert now[i] in multiset(now) + multiset(victims);
    }
    NoGpu(now, |now|);
  }

  lemma {:induction false} NoGpu(s: seq<Node>, n: nat)
    requires n <= |s| && forall i | 0 <= i < |s| :: s[i].gpu == 0
    ensures Gpu(s, n) == 0
  {
    if n > 0 { NoGpu(s, n - 1); }
  }

  /** A level tracked again with another texture: the first one is neither held any more nor handed back. */
  method ForgottenTextureRun() returns (c: Cache)
    ensures c.Valid() && c.Traces(1) == 0 && c.Traces(2) == 1 && c.freed == []
  {
    c := new Cache(50, 100);
    assert c.Traces(1) == 0 && c.Traces(2) == 0;
    c.TrackLOD(LEVEL, 40, 10, 1, 1);
    assert LEVEL in c.entries;
    c.TrackLOD(LEVEL, 40, 10, 2, 2);
  }
}
