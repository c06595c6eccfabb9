/** The cache object itself (assets/cache.go): tracking, eviction to a target, GPU-only eviction and device loss. */
module AssetCaches {
  import opened LodHeap
  import opened AssetCache
  import Ordering

  /**
   * The heap is ordered, every node sits at its recorded index, every table entry points at its node, and both byte
   * totals are the sums over the heap (not over the table: device loss can leave nodes the table no longer lists).
   */
  ghost predicate Consistent(h: Heap, entries: map<Key, nat>, used: int, gpu: int, next: nat) {
    && Ordered(h.items) && Placed(h) && Linked(entries, h)
    && used == Used(h.items, |h.items|) && gpu == Gpu(h.items, |h.items|)
    && forall i | 0 <= i < |h.items| :: h.items[i].node < next
  }

  predicate HasGpu(x: Node) { x.gpu > 0 || x.texture != 0 }

  function Cleared(x: Node): Node { x.(gpu := 0, texture := 0) }

  /** Clearing the GPU fields of one table entry in place. */
  lemma ClearKeeps(h: Heap, entries: map<Key, nat>, used: int, gpu: int, next: nat, k: Key)
    requires Consistent(h, entries, used, gpu, next) && k in entries
    ensures At(h, k, entries[k])
    ensures var i := h.index[entries[k]]; var x := h.items[i]; var g := Heap(h.items[i := Cleared(x)], h.index);
      Consistent(g, entries, used, gpu - x.gpu, next) && Live(entries, g) == Live(entries, h)[k := Cleared(x)]
  {
    var i := h.index[entries[k]];
    var x := h.items[i];
    var g := Heap(h.items[i := Cleared(x)], h.index);
    assert At(h, k, entries[k]);
    UpdateKeeps(entries, h, k, Cleared(x));
    SumsUpdate(h.items, i, Cleared(x), |h.items|);
    forall m | 0 < m < |g.items| ensures OrderedAt(g.items, m) {
      assert OrderedAt(h.items, m);
    }
  }

  /** The heap with the GPU fields of one node cleared in place. */
  ghost function ClearNode(h: Heap, n: nat): Heap
    requires n in h.index && 0 <= h.index[n] < |h.items|
  {
    Heap(h.items[h.index[n] := Cleared(h.items[h.index[n]])], h.index)
  }

  lemma TightClear(entries: map<Key, nat>, s: seq<Node>, i: nat)
    requires i < |s|
    ensures Tight(entries, s[i := Cleared(s[i])]) <==> Tight(entries, s)
  {
    var t := s[i := Cleared(s[i])];
    if Tight(entries, t) {
      forall j | 0 <= j < |s| ensures s[j].key in entries && entries[s[j].key] == s[j].node {
        assert t[j].key == s[j].key && t[j].node == s[j].node;
      }
    }
  }

  lemma TightSame(entries: map<Key, nat>, a: seq<Node>, b: seq<Node>)
    requires multiset(a) == multiset(b)
    ensures Tight(entries, a) <==> Tight(entries, b)
  {
    TightIsBag(entries, a);
    TightIsBag(entries, b);
  }

  /** A tight heap stays tight when a node leaves together with its key. */
  lemma TightWithout(entries: map<Key, nat>, a: seq<Node>, b: seq<Node>, x: Node)
    requires Tight(entries, a) && DistinctNodes(a) && multiset(a) == multiset(b + [x])
    ensures Tight(entries - {x.key}, b)
  {
    TightSame(entries, a, b + [x]);
    DistinctUnderSame(a, b + [x]);
    forall i | 0 <= i < |b| ensures b[i].key != x.key && b[i].key in entries && entries[b[i].key] == b[i].node {
      assert (b + [x])[i] == b[i] && (b + [x])[|b|] == x;
    }
  }

  function KeysOf(s: seq<Node>): set<Key> {
    set i | 0 <= i < |s| :: s[i].key
  }

  /** No victim is pinned, victims go in order of use, and no unpinned node left behind comes before any of them. */
  ghost predicate LeastRecentlyUsed(refs: map<Key, int>, victims: seq<Node>, left: seq<Node>) {
    && (forall i | 0 <= i < |victims| :: !Pinned(refs, victims[i].key))
    && (forall i, j | 0 <= i < j < |victims| :: Leq(victims[i], victims[j]))
    && (forall i, m | 0 <= i < |victims| && 0 <= m < |left| && !Pinned(refs, left[m].key) :: Leq(victims[i], left[m]))
  }

  lemma NextVictim(refs: map<Key, int>, victims: seq<Node>, before: seq<Node>, after: seq<Node>, x: Node)
    requires LeastRecentlyUsed(refs, victims, before) && LeastOf(refs, before, x) && multiset(before) == multiset(after + [x])
    ensures LeastRecentlyUsed(refs, victims + [x], after)
  {
    assert x in multiset(after + [x]);
    var k :| 0 <= k < |before| && before[k] == x;
    forall m | 0 <= m < |after| && !Pinned(refs, after[m].key)
      ensures Leq(x, after[m]) && forall i | 0 <= i < |victims| :: Leq(victims[i], after[m])
    {
      assert (after + [x])[m] in multiset(after + [x]);
      var l :| 0 <= l < |before| && before[l] == after[m];
    }
  }

  function Gone(p: Popped): set<Key> { if p.Victim? then {p.x.key} else {} }
  function FreedBy(p: Popped): seq<nat> { if p.Victim? && p.x.texture != 0 then [p.x.texture] else [] }
  function SizeOff(p: Popped): int { if p.Victim? then p.x.size else 0 }
  function GpuOff(p: Popped): int { if p.Victim? then p.x.gpu else 0 }

  /** Popping a node, with its key leaving the table and its bytes the totals, keeps everything consistent. */
  lemma DropKeeps(was: Heap, h: Heap, entries: map<Key, nat>, used: int, gpu: int, next: nat, p: Popped)
    requires Consistent(was, entries, used, gpu, next) && Ordered(h.items) && Placed(h) && Same(was.items, h.items + Off(p))
    ensures Consistent(h, entries - Gone(p), used - SizeOff(p), gpu - GpuOff(p), next)
    ensures Live(entries - Gone(p), h) == Live(entries, was) - Gone(p)
  {
    if p.Nothing? {
      assert h.items + Off(p) == h.items && entries - Gone(p) == entries;
      RearrangeKeeps(was, h, entries, used, gpu, next);
    } else {
      DropVictim(was, h, entries, used, gpu, next, p.x);
    }
  }

  lemma RearrangeKeeps(was: Heap, h: Heap, entries: map<Key, nat>, used: int, gpu: int, next: nat)
    requires Placed(h) && Ordered(h.items) && Same(was.items, h.items) && Linked(entries, was)
    requires used == Used(was.items, |was.items|) && gpu == Gpu(was.items, |was.items|) && forall i | 0 <= i < |was.items| :: was.items[i].node < next
    ensures Consistent(h, entries, used, gpu, next) && Live(entries, h) == Live(entries, was)
    ensures Tight(entries, h.items) <==> Tight(entries, was.items)
  {
    LinkedSame(entries, was, h);
    BelowSame(next, was.items, h.items);
    TightSame(entries, was.items, h.items);
  }

  /** One node changed in place and the heap rearranged. */
  lemma RetouchKeeps(was: Heap, changed: Heap, h: Heap, entries: map<Key, nat>, used: int, gpu: int, next: nat, i: nat, x: Node)
    requires Consistent(was, entries, used, gpu, next) && i < |was.items| && changed == Heap(was.items[i := x], was.index)
    requires x.node == was.items[i].node && x.key == was.items[i].key && Linked(entries, changed) && Placed(changed)
    requires Placed(h) && Ordered(h.items) && Same(changed.items, h.items)
    ensures Consistent(h, entries, used + x.size - was.items[i].size, gpu + x.gpu - was.items[i].gpu, next) && Live(entries, h) == Live(entries, changed)
    ensures Tight(entries, was.items) ==> Tight(entries, h.items)
    ensures multiset(h.items) == multiset(was.items) - multiset{was.items[i]} + multiset{x}
    ensures forall t: nat :: Holding(h.items, |h.items|, t) == Holding(was.items, |was.items|, t) + Has(x, t) - Has(was.items[i], t)
  {
    SumsUpdate(was.items, i, x, |was.items|);
    RearrangeKeeps(changed, h, entries, used + x.size - was.items[i].size, gpu + x.gpu - was.items[i].gpu, next);
    RetouchTraces(was.items, i, x, h.items);
  }

  lemma DropVictim(was: Heap, h: Heap, entries: map<Key, nat>, used: int, gpu: int, next: nat, x: Node)
    requires Consistent(was, entries, used, gpu, next) && Ordered(h.items) && Placed(h) && Same(was.items, h.items + [x])
    ensures Consistent(h, entries - {x.key}, used - x.size, gpu - x.gpu, next)
    ensures Live(entries - {x.key}, h) == Live(entries, was) - {x.key}
  {
    BelowSame(next, was.items, h.items + [x]);
    assert forall i | 0 <= i < |h.items| :: (h.items + [x])[i] == h.items[i];
    SumsConcat(h.items, [x], 1);
    LinkedWithout(entries, was, h, x);
  }

  lemma InsertKeeps(was: Heap, h: Heap, entries: map<Key, nat>, used: int, gpu: int, next: nat, x: Node)
    requires Consistent(was, entries, used, gpu, next) && Ordered(h.items) && Placed(h) && Same(was.items + [x], h.items)
    requires x.node == next && x.key !in entries
    ensures Consistent(h, entries[x.key := x.node], used + x.size, gpu + x.gpu, next + 1)
    ensures Live(entries[x.key := x.node], h) == Live(entries, was)[x.key := x]
    ensures Tight(entries, was.items) ==> Tight(entries[x.key := x.node], h.items)
  {
    SumsConcat(was.items, [x], 1);
    LinkedPush(entries, was, h, x.key, x);
    BelowSame(next + 1, was.items + [x], h.items);
    if Tight(entries, was.items) {
      assert Tight(entries[x.key := x.node], was.items + [x]);
      TightSame(entries[x.key := x.node], was.items + [x], h.items);
    }
  }

  lemma DropTight(was: Heap, h: Heap, entries: map<Key, nat>, p: Popped)
    requires Tight(entries, was.items) && Placed(was) && Same(was.items, h.items + Off(p))
    ensures Tight(entries - Gone(p), h.items)
  {
    if p.Nothing? {
      assert h.items + Off(p) == h.items && entries - Gone(p) == entries;
      TightSame(entries, was.items, h.items);
    } else {
      PlacedDistinct(was);
      TightWithout(entries, was.items, h.items, p.x);
    }
  }

  lemma DropPinned(refs: map<Key, int>, was: seq<Node>, now: seq<Node>)
    requires AllPinned(refs, was) && Same(was, now + Off(Nothing))
    ensures AllPinned(refs, now)
  {
    assert now + Off(Nothing) == now;
    PinnedBag(refs, now, was);
  }

  /** The nodes there were are those left and the victims, taken in order of use. */
  ghost predicate Progress(refs: map<Key, int>, was: seq<Node>, now: seq<Node>, victims: seq<Node>) {
    multiset(was) == multiset(now) + multiset(victims) && LeastRecentlyUsed(refs, victims, now)
  }

  lemma ProgressStep(refs: map<Key, int>, was: seq<Node>, before: seq<Node>, now: seq<Node>, victims: seq<Node>, p: Popped)
    requires Progress(refs, was, before, victims) && Same(before, now + Off(p)) && (p.Victim? ==> LeastOf(refs, before, p.x))
    ensures Progress(refs, was, now, victims + Off(p))
  {
    if p.Nothing? {
      assert victims + Off(p) == victims && now + Off(p) == now;
      LruSame(refs, victims, before, now);
    } else {
      NextVictim(refs, victims, before, now, p.x);
    }
  }

  /** The table after the victims' keys have left it. */
  ghost predicate LeftAfter(now: map<Key, Node>, was: map<Key, Node>, victims: seq<Node>) {
    now == was - KeysOf(victims)
  }

  lemma LeftStep(was: map<Key, Node>, before: map<Key, Node>, now: map<Key, Node>, victims: seq<Node>, p: Popped)
    requires LeftAfter(before, was, victims) && now == before - Gone(p)
    ensures LeftAfter(now, was, victims + Off(p))
  {
    var t := victims + Off(p);
    assert KeysOf(t) == KeysOf(victims) + Gone(p) by {
      assert forall i | 0 <= i < |victims| :: t[i] == victims[i];
      if p.Victim? { assert t[|victims|] == p.x; }
    }
  }

  // ----- GPU-only eviction and device loss -----

  function ByUse(): Node -> Ordering.Key {
    (x: Node) => Ordering.Key(x.lastUse, x.key.id, x.key.lod)
  }

  ghost predicate DistinctLevels(s: seq<Node>) {
    forall i, j | 0 <= i < j < |s| :: s[i].key != s[j].key
  }

  /** The list holds exactly the tracked levels with GPU data, among the given keys. */
  ghost predicate Candidates(levels: map<Key, Node>, keys: set<Key>, s: seq<Node>) {
    && DistinctLevels(s)
    && (forall i | 0 <= i < |s| :: s[i].key in keys && s[i].key in levels && levels[s[i].key] == s[i] && HasGpu(s[i]))
    && (forall k | k in keys && k in levels && HasGpu(levels[k]) :: levels[k] in s)
  }

  lemma CandidatesSorted(levels: map<Key, Node>, keys: set<Key>, s: seq<Node>, r: seq<Node>)
    requires Candidates(levels, keys, s) && Ordering.IsSortOf(r, s, ByUse())
    ensures Candidates(levels, keys, r)
  {
    forall i | 0 <= i < |r| ensures r[i] in s { Ordering.InBoth(r, s, r[i]); }
    forall x | x in s ensures x in r { Ordering.InBoth(s, r, x); }
    forall i, j | 0 <= i < j < |r| ensures r[i].key != r[j].key {
      assert Ordering.Before(ByUse()(r[i]), ByUse()(r[j]));
    }
  }

  /** How many of the first n are unpinned: the number of levels a GPU eviction reports. */
  function UnpinnedIn(refs: map<Key, int>, order: seq<Node>, n: nat): nat
    requires n <= |order|
  {
    if n == 0 then 0 else UnpinnedIn(refs, order, n - 1) + if Pinned(refs, order[n - 1].key) then 0 else 1
  }

  /** Of the first n in the order, the unpinned ones lost their GPU data; every other level is as it was. */
  ghost predicate ClearedUpTo(refs: map<Key, int>, was: map<Key, Node>, now: map<Key, Node>, order: seq<Node>, n: nat) {
    && n <= |order| && was.Keys == now.Keys
    && (forall j | 0 <= j < n && order[j].key in was :: now[order[j].key] == if Pinned(refs, order[j].key) then was[order[j].key] else Cleared(was[order[j].key]))
    && (forall k | k in was && (forall j | 0 <= j < n :: order[j].key != k) :: now[k] == was[k])
  }

  lemma ClearedStep(refs: map<Key, int>, was: map<Key, Node>, before: map<Key, Node>, now: map<Key, Node>, order: seq<Node>, n: nat)
    requires ClearedUpTo(refs, was, before, order, n) && n < |order| && DistinctLevels(order) && order[n].key in was
    requires now == if Pinned(refs, order[n].key) then before else before[order[n].key := Cleared(before[order[n].key])]
    ensures ClearedUpTo(refs, was, now, order, n + 1)
  {
    assert before[order[n].key] == was[order[n].key];
  }

  predicate GpuOnly(x: Node) { HasGpu(x) && x.size <= 0 }

  /** Device loss: levels with CPU data lose their GPU fields, GPU-only levels leave the table. */
  ghost function AfterLoss(levels: map<Key, Node>, todo: set<Key>): map<Key, Node> {
    map k | k in levels && (k in todo || !GpuOnly(levels[k])) :: if k in todo || !HasGpu(levels[k]) then levels[k] else Cleared(levels[k])
  }

  /** What a device loss makes of a heap node: nodes the table listed lose their GPU fields, all others are untouched. */
  function AfterSweep(entries: map<Key, nat>, todo: set<Key>, x: Node): Node {
    if x.key in entries && entries[x.key] == x.node && x.key !in todo && HasGpu(x) then Cleared(x) else x
  }

  /** Every heap node is in its place, swept unless its key is still to be visited. */
  ghost predicate SweptTo(entries: map<Key, nat>, was: seq<Node>, todo: set<Key>, now: seq<Node>) {
    |now| == |was| && forall i | 0 <= i < |was| :: now[i] == AfterSweep(entries, todo, was[i])
  }

  lemma LossStart(levels: map<Key, Node>, entries: map<Key, nat>, items: seq<Node>)
    requires levels.Keys == entries.Keys
    ensures AfterLoss(levels, levels.Keys) == levels && NoGpuOnly(levels, levels.Keys) && SweptTo(entries, items, levels.Keys, items)
  {}

  lemma SweepOne(entries: map<Key, nat>, was: seq<Node>, todo: set<Key>, h: Heap, k: Key)
    requires SweptTo(entries, was, todo, h.items) && Placed(h) && k in entries && k in todo && At(h, k, entries[k])
    ensures SweptTo(entries, was, todo - {k}, if HasGpu(h.items[h.index[entries[k]]]) then ClearNode(h, entries[k]).items else h.items)
  {
    var i := h.index[entries[k]];
    forall j | 0 <= j < |was| && j != i ensures AfterSweep(entries, todo - {k}, was[j]) == AfterSweep(entries, todo, was[j]) {
      assert h.items[j].node != entries[k];
    }
  }

  /** None of the levels already seen was GPU-only. */
  ghost predicate NoGpuOnly(levels: map<Key, Node>, todo: set<Key>) {
    forall k | k in levels && k !in todo :: !GpuOnly(levels[k])
  }

  lemma LossStep(levels: map<Key, Node>, todo: set<Key>, k: Key)
    requires k in levels && k in todo
    ensures k in AfterLoss(levels, todo) && AfterLoss(levels, todo)[k] == levels[k]
    ensures GpuOnly(levels[k]) ==> AfterLoss(levels, todo - {k}) == AfterLoss(levels, todo)[k := Cleared(levels[k])] - {k}
    ensures HasGpu(levels[k]) && !GpuOnly(levels[k]) ==> AfterLoss(levels, todo - {k}) == AfterLoss(levels, todo)[k := Cleared(levels[k])]
    ensures !HasGpu(levels[k]) ==> AfterLoss(levels, todo - {k}) == AfterLoss(levels, todo)
    ensures NoGpuOnly(levels, todo - {k}) <==> NoGpuOnly(levels, todo) && !GpuOnly(levels[k])
  {}

  /** Dropping a key whose node stays in the heap leaves a node the table does not list. */
  lemma DropKey(h: Heap, entries: map<Key, nat>, used: int, gpu: int, next: nat, k: Key)
    requires Consistent(h, entries, used, gpu, next) && k in entries
    ensures Consistent(h, entries - {k}, used, gpu, next) && Live(entries - {k}, h) == Live(entries, h) - {k}
    ensures !Tight(entries - {k}, h.items)
  {
    assert At(h, k, entries[k]);
    assert forall l | l in entries - {k} :: At(h, l, entries[l]);
  }

  // ----- what eviction means, on the fields of the levels -----

  /** Earlier by last use, then by asset, then by level; or the same in all three. */
  predicate NoLater(a: Node, b: Node) {
    a.lastUse < b.lastUse || (a.lastUse == b.lastUse && (a.key.id < b.key.id || (a.key.id == b.key.id && a.key.lod <= b.key.lod)))
  }

  predicate Referenced(refs: map<Key, int>, x: Node) {
    x.key in refs && refs[x.key] > 0
  }

  ghost predicate AllReferenced(refs: map<Key, int>, s: seq<Node>) {
    forall i | 0 <= i < |s| :: Referenced(refs, s[i])
  }

  /** No victim had a positive reference count; they went oldest first; every unreferenced node left is no older than any of them. */
  ghost predicate OldestUnreferenced(refs: map<Key, int>, victims: seq<Node>, left: seq<Node>) {
    && (forall i | 0 <= i < |victims| :: !Referenced(refs, victims[i]))
    && (forall i, j | 0 <= i < j < |victims| :: NoLater(victims[i], victims[j]))
    && (forall i, m | 0 <= i < |victims| && 0 <= m < |left| && !Referenced(refs, left[m]) :: NoLater(victims[i], left[m]))
  }

  lemma VictimsAreOldest(refs: map<Key, int>, victims: seq<Node>, left: seq<Node>)
    requires LeastRecentlyUsed(refs, victims, left)
    ensures OldestUnreferenced(refs, victims, left)
  {
    forall i | 0 <= i < |victims| ensures !Referenced(refs, victims[i]) { assert !Pinned(refs, victims[i].key); }
    forall i, m | 0 <= i < |victims| && 0 <= m < |left| && !Referenced(refs, left[m]) ensures NoLater(victims[i], left[m]) {
      assert !Pinned(refs, left[m].key);
    }
  }

  lemma PinnedIsReferenced(refs: map<Key, int>, s: seq<Node>)
    ensures AllPinned(refs, s) <==> AllReferenced(refs, s)
  {
    if AllPinned(refs, s) {
      forall i | 0 <= i < |s| ensures Referenced(refs, s[i]) { assert Pinned(refs, s[i].key); }
    }
    if AllReferenced(refs, s) {
      forall i | 0 <= i < |s| ensures Pinned(refs, s[i].key) { assert Referenced(refs, s[i]); }
    }
  }

  /** x' is x without its texture and GPU bytes. */
  predicate LostGpu(x': Node, x: Node) {
    x'.texture == 0 && x'.gpu == 0 && x'.size == x.size && x'.lastUse == x.lastUse && x'.key == x.key && x'.node == x.node
  }

  /**
   * Of the levels with GPU data, listed oldest first, the unreferenced ones among the first n lost it and nothing
   * else; every other level is untouched, and `count` is how many lost it.
   */
  ghost predicate OldestLoseGpu(refs: map<Key, int>, was: map<Key, Node>, now: map<Key, Node>, order: seq<Node>, n: nat, count: int) {
    && n <= |order| && was.Keys == now.Keys
    && (forall i, j | 0 <= i < j < |order| :: NoLater(order[i], order[j]))
    && (forall j | 0 <= j < n && order[j].key in was && !Referenced(refs, order[j]) :: LostGpu(now[order[j].key], was[order[j].key]))
    && (forall j | 0 <= j < n && order[j].key in was && Referenced(refs, order[j]) :: now[order[j].key] == was[order[j].key])
    && (forall k | k in was && (forall j | 0 <= j < n :: order[j].key != k) :: now[k] == was[k])
    && count == |Unreferenced(refs, order, n)|
  }

  ghost function Unreferenced(refs: map<Key, int>, order: seq<Node>, n: nat): set<nat>
    requires n <= |order|
  {
    set j: nat | j < n && !Referenced(refs, order[j])
  }

  lemma {:induction false} UnpinnedCount(refs: map<Key, int>, order: seq<Node>, n: nat)
    requires n <= |order|
    ensures UnpinnedIn(refs, order, n) == |Unreferenced(refs, order, n)|
  {
    if n == 0 {
      assert Unreferenced(refs, order, 0) == {};
    } else {
      UnpinnedCount(refs, order, n - 1);
      assert Unreferenced(refs, order, n) == Unreferenced(refs, order, n - 1) + if Referenced(refs, order[n - 1]) then {} else {n - 1};
    }
  }

  lemma ClearedMeaning(refs: map<Key, int>, was: map<Key, Node>, now: map<Key, Node>, order: seq<Node>, n: nat)
    requires ClearedUpTo(refs, was, now, order, n) && Ordering.Ascending(order, ByUse())
    ensures OldestLoseGpu(refs, was, now, order, n, UnpinnedIn(refs, order, n))
  {
    UnpinnedCount(refs, order, n);
    forall i, j | 0 <= i < j < |order| ensures NoLater(order[i], order[j]) {
      assert Ordering.Before(ByUse()(order[i]), ByUse()(order[j]));
    }
  }

  /** After a device loss a level remains unless it had nothing but GPU data, and remains without GPU data. */
  ghost predicate Lost(was: map<Key, Node>, now: map<Key, Node>) {
    && (forall k :: k in now <==> k in was && (was[k].size > 0 || (was[k].gpu <= 0 && was[k].texture == 0)))
    && (forall k | k in now && (was[k].gpu > 0 || was[k].texture != 0) :: LostGpu(now[k], was[k]))
    && (forall k | k in now && !(was[k].gpu > 0 || was[k].texture != 0) :: now[k] == was[k])
  }

  lemma LossMeaning(levels: map<Key, Node>)
    ensures Lost(levels, AfterLoss(levels, {}))
  {}

  class Cache {
    const budgetBytes: int
    const gpuBudget: int
    var heap: Heap
    var entries: map<Key, nat>
    var usedBytes: int
    var gpuUsed: int
    var deviceGeneration: nat
    var evictions: nat
    var freed: seq<nat>
    var nextNode: nat

    ghost predicate Valid()
      reads this
    {
      Consistent(heap, entries, usedBytes, gpuUsed, nextNode)
    }

    ghost function Levels(): map<Key, Node>
      requires Valid()
      reads this
    {
      Live(entries, heap)
    }

    ghost predicate Exact()
      reads this
    {
      Tight(entries, heap.items)
    }

    ghost function Traces(t: nat): nat
      reads this
    {
      TracesOf(heap.items, freed, t)
    }

    /** No texture is held twice, handed back twice, or held after it was handed back. */
    ghost predicate Once()
      reads this
    {
      forall t: nat | t != 0 :: Traces(t) <= 1
    }

    constructor (budgetBytes: int, gpuBudget: int)
      ensures Valid() && Exact() && Levels() == map[] && usedBytes == 0 && gpuUsed == 0 && freed == [] && entries == map[] && heap.items == [] && deviceGeneration == 0 && nextNode == 0
      ensures this.budgetBytes == budgetBytes && this.gpuBudget == gpuBudget
    {
      this.budgetBytes, this.gpuBudget := budgetBytes, gpuBudget;
      heap, entries, usedBytes, gpuUsed := Heap([], map[]), map[], 0, 0;
      deviceGeneration, evictions, freed, nextNode := 0, 0, [], 0;
    }

    /** trackLOD: the table maps the key to the new figures and every other level is as it was. */
    method TrackLOD(key: Key, size: int, gpu: int, texture: nat, lastUse: int)
      requires Valid()
      modifies this`heap, this`entries, this`usedBytes, this`gpuUsed, this`nextNode
      ensures Valid()
      ensures Levels() == old(Levels())[key := Node(if key in old(entries) then old(entries)[key] else old(nextNode), key, lastUse, size, gpu, texture)]
      ensures |heap.items| == |old(heap).items| + (if key in old(entries) then 0 else 1)
      ensures usedBytes == old(usedBytes) + size - if key in old(entries) then old(Levels()[key].size) else 0
      ensures gpuUsed == old(gpuUsed) + gpu - if key in old(entries) then old(Levels()[key].gpu) else 0
      ensures old(Exact()) ==> Exact()
      ensures key !in old(entries) ==> multiset(heap.items) == multiset(old(heap).items) + multiset{Levels()[key]}
      ensures key in old(entries) ==> multiset(heap.items) == multiset(old(heap).items) - multiset{old(Levels()[key])} + multiset{Levels()[key]}
      ensures nextNode == old(nextNode) + (if key in old(entries) then 0 else 1) && entries.Keys == old(entries).Keys + {key}
      ensures forall t: nat | t != 0 :: Traces(t) == old(Traces(t)) + (if texture == t then 1 else 0) - (if key in old(entries) && old(Levels()[key].texture) == t then 1 else 0)
      ensures old(Once()) && (texture == 0 || old(Traces(texture)) == 0 || (key in old(entries) && old(Levels()[key].texture) == texture)) ==> Once()
    {
      if key in entries {
        Retouch(key, Node(entries[key], key, lastUse, size, gpu, texture));
      } else {
        Insert(Node(nextNode, key, lastUse, size, gpu, texture));
      }
    }

    /** The level is already tracked: update it in place and restore the heap order. */
    method Retouch(key: Key, x: Node)
      requires Valid() && key in entries && x.node == entries[key] && x.key == key
      modifies this`heap, this`usedBytes, this`gpuUsed
      ensures Valid() && Levels() == old(Levels())[key := x] && |heap.items| == |old(heap).items|
      ensures usedBytes == old(usedBytes) + x.size - old(Levels()[key].size) && gpuUsed == old(gpuUsed) + x.gpu - old(Levels()[key].gpu)
      ensures old(Exact()) ==> Exact()
      ensures multiset(heap.items) == multiset(old(heap).items) - multiset{old(Levels()[key])} + multiset{x}
      ensures forall t: nat :: Traces(t) == old(Traces(t)) + Has(x, t) - Has(old(Levels()[key]), t)
    {
      ghost var was := heap;
      assert At(heap, key, entries[key]);
      var i := heap.index[x.node];
      usedBytes := usedBytes - heap.items[i].size;
      gpuUsed := gpuUsed - heap.items[i].gpu;
      heap := Heap(heap.items[i := x], heap.index);
      usedBytes := usedBytes + x.size;
      gpuUsed := gpuUsed + x.gpu;
      ghost var changed := heap;
      ChangedIsBroken(was.items, i, x);
      UpdateKeeps(entries, was, key, x);
      heap := Fix(heap, i);
      RetouchKeeps(was, changed, heap, entries, old(usedBytes), old(gpuUsed), nextNode, i, x);
    }

    /** A new level: push its node. */
    method Insert(x: Node)
      requires Valid() && x.key !in entries && x.node == nextNode
      modifies this`heap, this`entries, this`usedBytes, this`gpuUsed, this`nextNode
      ensures Valid() && Levels() == old(Levels())[x.key := x] && |heap.items| == |old(heap).items| + 1
      ensures usedBytes == old(usedBytes) + x.size && gpuUsed == old(gpuUsed) + x.gpu
      ensures old(Exact()) ==> Exact()
      ensures multiset(heap.items) == multiset(old(heap).items) + multiset{x} && nextNode == old(nextNode) + 1 && entries == old(entries)[x.key := x.node]
      ensures forall t: nat :: Traces(t) == old(Traces(t)) + Has(x, t)
    {
      ghost var was := heap;
      usedBytes := usedBytes + x.size;
      gpuUsed := gpuUsed + x.gpu;
      heap := Push(heap, x);
      InsertKeeps(was, heap, entries, old(usedBytes), old(gpuUsed), nextNode, x);
      InsertTraces(was.items, x, heap.items);
      entries := entries[x.key := x.node];
      nextNode := nextNode + 1;
    }

    /** Take the victim off the heap; the table and totals still have to follow. */
    method TakeVictim(refs: map<Key, int>) returns (p: Popped)
      requires Valid()
      modifies this`heap
      ensures Consistent(heap, entries - Gone(p), usedBytes - SizeOff(p), gpuUsed - GpuOff(p), nextNode)
      ensures Live(entries - Gone(p), heap) == old(Levels()) - Gone(p)
      ensures Same(old(heap).items, heap.items + Off(p))
      ensures p.Victim? ==> LeastOf(refs, old(heap).items, p.x)
      ensures p.Nothing? ==> AllPinned(refs, heap.items)
      ensures old(Exact()) ==> Tight(entries - Gone(p), heap.items)
      ensures SameTraces(old(heap).items, freed, heap.items, freed + FreedBy(p))
      ensures p.Victim? ==> VictimNamed(entries, old(Levels()), heap.items, p.x)
    {
      ghost var was := heap;
      heap, p := PopMinEvictable(heap, refs);
      DropKeeps(was, heap, entries, usedBytes, gpuUsed, nextNode, p);
      if Tight(entries, was.items) { DropTight(was, heap, entries, p); }
      VictimTraces(was.items, heap.items, p, freed);
      if p.Nothing? { DropPinned(refs, was.items, heap.items); } else { NamedByKey(entries, was, heap, p.x); }
    }

    /** Evict the least recently used unpinned level, if there is one. */
    method EvictOne(refs: map<Key, int>) returns (p: Popped)
      requires Valid()
      modifies this`heap, this`entries, this`usedBytes, this`gpuUsed, this`freed, this`evictions
      ensures Valid() && Same(old(heap).items, heap.items + Off(p))
      ensures p.Victim? ==> LeastOf(refs, old(heap).items, p.x)
      ensures p.Nothing? ==> AllPinned(refs, heap.items)
      ensures Levels() == old(Levels()) - Gone(p) && entries == old(entries) - Gone(p)
      ensures usedBytes == old(usedBytes) - SizeOff(p) && gpuUsed == old(gpuUsed) - GpuOff(p)
      ensures freed == old(freed) + FreedBy(p)
      ensures evictions == old(evictions) + |Off(p)|
      ensures old(Exact()) ==> Exact()
      ensures SameTraces(old(heap).items, old(freed), heap.items, freed)
      ensures p.Victim? ==> VictimNamed(old(entries), old(Levels()), heap.items, p.x)
    {
      p := TakeVictim(refs);
      Settle(p);
    }

    /** The victim's texture goes back, its bytes and its key leave; nothing happens without a victim. */
    method Settle(p: Popped)
      modifies this`entries, this`usedBytes, this`gpuUsed, this`freed, this`evictions
      ensures entries == old(entries) - Gone(p) && freed == old(freed) + FreedBy(p) && evictions == old(evictions) + |Off(p)|
      ensures usedBytes == old(usedBytes) - SizeOff(p) && gpuUsed == old(gpuUsed) - GpuOff(p)
    {
      if p.Nothing? {
        assert entries - Gone(p) == entries;
        return;
      }
      if p.x.texture != 0 { freed := freed + [p.x.texture]; }
      usedBytes := usedBytes - p.x.size;
      gpuUsed := gpuUsed - p.x.gpu;
      entries := entries - {p.x.key};
      evictions := evictions + 1;
    }

    predicate Over(used: int, gpu: int, targetBytes: int, targetGPU: int) {
      used > targetBytes || (gpuBudget > 0 && gpu > targetGPU)
    }

    /** The last eviction happened while a target was still exceeded. */
    ghost predicate LastNeeded(victims: seq<Node>, targetBytes: int, targetGPU: int)
      reads this
    {
      victims != [] ==> Over(usedBytes + victims[|victims| - 1].size, gpuUsed + victims[|victims| - 1].gpu, targetBytes, targetGPU)
    }

    /** Where the loop stands: nodes and table after these victims. */
    ghost predicate Evicted(refs: map<Key, int>, was: seq<Node>, levels: map<Key, Node>, victims: seq<Node>)
      requires Valid()
      reads this
    {
      Progress(refs, was, heap.items, victims) && LeftAfter(Levels(), levels, victims)
    }

    /**
     * The eviction loop. It ends within both targets or with everything left pinned; the victims are the least
     * recently used unpinned nodes in order, never a pinned one; and the last of them was still needed.
     */
    method Evict(refs: map<Key, int>, targetBytes: int, targetGPU: int) returns (victims: seq<Node>)
      requires Valid()
      modifies this`heap, this`entries, this`usedBytes, this`gpuUsed, this`freed, this`evictions
      ensures Valid() && Evicted(refs, old(heap).items, old(Levels()), victims) && LastNeeded(victims, targetBytes, targetGPU)
      ensures !Over(usedBytes, gpuUsed, targetBytes, targetGPU) || AllPinned(refs, heap.items)
      ensures evictions == old(evictions) + |victims| && (old(Exact()) ==> Exact())
      ensures SameTraces(old(heap).items, old(freed), heap.items, freed)
    {
      victims := [];
      ghost var was, levels := heap.items, Levels();
      var stuck := false;
      while !stuck && Over(usedBytes, gpuUsed, targetBytes, targetGPU)
        invariant Valid() && Evicted(refs, was, levels, victims) && LastNeeded(victims, targetBytes, targetGPU)
        invariant evictions == old(evictions) + |victims| && (old(Exact()) ==> Exact())
        invariant SameTraces(old(heap).items, old(freed), heap.items, freed)
        invariant stuck ==> AllPinned(refs, heap.items)
        decreases !stuck, |heap.items|
      {
        victims, stuck := EvictStep(refs, victims, targetBytes, targetGPU, was, levels);
      }
    }

    /** One round of the loop: another victim, or nothing is left to evict. */
    method EvictStep(refs: map<Key, int>, victims: seq<Node>, targetBytes: int, targetGPU: int, ghost was: seq<Node>, ghost levels: map<Key, Node>) returns (more: seq<Node>, stuck: bool)
      requires Valid() && Evicted(refs, was, levels, victims) && LastNeeded(victims, targetBytes, targetGPU)
      requires Over(usedBytes, gpuUsed, targetBytes, targetGPU)
      modifies this`heap, this`entries, this`usedBytes, this`gpuUsed, this`freed, this`evictions
      ensures Valid() && Evicted(refs, was, levels, more) && LastNeeded(more, targetBytes, targetGPU)
      ensures stuck ==> AllPinned(refs, heap.items)
      ensures !stuck ==> |heap.items| < |old(heap).items|
      ensures evictions - old(evictions) == |more| - |victims| && (old(Exact()) ==> Exact())
      ensures SameTraces(old(heap).items, old(freed), heap.items, freed)
    {
      ghost var before := Levels();
      var p := EvictOne(refs);
      LeftStep(levels, before, Levels(), victims, p);
      ProgressStep(refs, was, old(heap).items, heap.items, victims, p);
      stuck := p.Nothing?;
      more := victims + Off(p);
    }

    /** evictIfNeeded. */
    method EvictIfNeeded(refs: map<Key, int>) returns (victims: seq<Node>)
      requires Valid()
      modifies this`heap, this`entries, this`usedBytes, this`gpuUsed, this`freed, this`evictions
      ensures Valid() && Evicted(refs, old(heap).items, old(Levels()), victims) && LastNeeded(victims, budgetBytes, gpuBudget)
      ensures SameTraces(old(heap).items, old(freed), heap.items, freed)
      ensures (usedBytes <= budgetBytes && (gpuBudget <= 0 || gpuUsed <= gpuBudget)) || AllReferenced(refs, heap.items)
      ensures old(Exact()) ==> Exact()
      ensures OldestUnreferenced(refs, victims, heap.items)
      ensures victims != [] ==> usedBytes + victims[|victims| - 1].size > budgetBytes || (gpuBudget > 0 && gpuUsed + victims[|victims| - 1].gpu > gpuBudget)
    {
      victims := Evict(refs, budgetBytes, gpuBudget);
      VictimsAreOldest(refs, victims, heap.items);
      PinnedIsReferenced(refs, heap.items);
    }

    /** EvictToWatermark with its two byte targets. */
    method EvictToWatermark(refs: map<Key, int>, targetBytes: int, targetGPU: int) returns (count: nat, victims: seq<Node>)
      requires Valid()
      modifies this`heap, this`entries, this`usedBytes, this`gpuUsed, this`freed, this`evictions
      ensures Valid() && (old(Exact()) ==> Exact()) && count == |victims|
      ensures Evicted(refs, old(heap).items, old(Levels()), victims) && LastNeeded(victims, targetBytes, targetGPU)
      ensures SameTraces(old(heap).items, old(freed), heap.items, freed)
      ensures budgetBytes <= 0 ==> count == 0 && Levels() == old(Levels()) && usedBytes == old(usedBytes)
      ensures budgetBytes > 0 ==> (usedBytes <= targetBytes && (gpuBudget <= 0 || gpuUsed <= targetGPU)) || AllReferenced(refs, heap.items)
      ensures OldestUnreferenced(refs, victims, heap.items)
      ensures victims != [] ==> usedBytes + victims[|victims| - 1].size > targetBytes || (gpuBudget > 0 && gpuUsed + victims[|victims| - 1].gpu > targetGPU)
      ensures count == evictions - old(evictions) && |heap.items| == |old(heap).items| - count
      ensures forall k | k in old(Levels()) && Pinned(refs, k) :: k in Levels() && Levels()[k] == old(Levels())[k]
    {
      count, victims := 0, [];
      if budgetBytes <= 0 { return; }
      victims := Evict(refs, targetBytes, targetGPU);
      count := |victims|;
      VictimsAreOldest(refs, victims, heap.items);
      PinnedIsReferenced(refs, heap.items);
      assert |multiset(old(heap).items)| == |old(heap).items| && |multiset(heap.items)| == |heap.items| && |multiset(victims)| == |victims|;
    }

    /** Clear one level's GPU fields in place and give its texture back. */
    method ClearGpu(k: Key)
      requires Valid() && k in entries
      modifies this`heap, this`gpuUsed, this`freed, this`evictions
      ensures Valid() && k in old(Levels()) && Levels() == old(Levels())[k := Cleared(old(Levels()[k]))]
      ensures freed == old(freed) + (if old(Levels()[k].texture) != 0 then [old(Levels()[k].texture)] else [])
      ensures gpuUsed == old(gpuUsed) - old(Levels()[k].gpu) && evictions == old(evictions) + 1 && |heap.items| == |old(heap).items|
      ensures old(Exact()) <==> Exact()
      ensures SameTraces(old(heap).items, old(freed), heap.items, freed)
      ensures old(At(heap, k, entries[k])) && heap == ClearNode(old(heap), entries[k])
    {
      ClearKeeps(heap, entries, usedBytes, gpuUsed, nextNode, k);
      var i := heap.index[entries[k]];
      var x := heap.items[i];
      TightClear(entries, heap.items, i);
      if x.texture != 0 { freed := freed + [x.texture]; }
      gpuUsed := gpuUsed - x.gpu;
      ClearTraces(heap.items, i, freed, old(freed));
      heap := Heap(heap.items[i := Cleared(x)], heap.index);
      evictions := evictions + 1;
    }

    method CollectCandidates() returns (s: seq<Node>)
      requires Valid()
      ensures Candidates(Levels(), entries.Keys, s)
    {
      s := [];
      var todo := entries.Keys;
      while todo != {}
        invariant todo <= entries.Keys && Candidates(Levels(), entries.Keys - todo, s)
        decreases todo
      {
        var k :| k in todo;
        assert At(heap, k, entries[k]);
        var x := heap.items[heap.index[entries[k]]];
        if x.texture != 0 || x.gpu > 0 { s := s + [x]; }
        todo := todo - {k};
      }
      assert entries.Keys - todo == entries.Keys;
    }

    /**
     * EvictGPUToWatermark: oldest first, unpinned levels lose their GPU data until the target is met or all
     * candidates have been seen. No level leaves the table and no CPU byte is released.
     */
    method EvictGPUToWatermark(refs: map<Key, int>, targetGPU: int) returns (order: seq<Node>, seen: nat)
      requires Valid()
      modifies this`heap, this`gpuUsed, this`freed, this`evictions
      ensures Valid() && ClearedUpTo(refs, old(Levels()), Levels(), order, seen) && (old(Exact()) <==> Exact())
      ensures gpuBudget > 0 && old(gpuUsed) > 0 ==> gpuUsed <= targetGPU || (seen == |order| && Candidates(old(Levels()), old(entries).Keys, order))
      ensures Ordering.Ascending(order, ByUse())
      ensures OldestLoseGpu(refs, old(Levels()), Levels(), order, seen, evictions - old(evictions))
      ensures gpuBudget <= 0 || old(gpuUsed) <= 0 || old(gpuUsed) <= targetGPU ==> seen == 0
      ensures evictions - old(evictions) == UnpinnedIn(refs, order, seen)
      ensures SameTraces(old(heap).items, old(freed), heap.items, freed)
    {
      order, seen := [], 0;
      if !(gpuBudget <= 0 || gpuUsed <= 0 || gpuUsed <= targetGPU) {
        order := SortedCandidates();
        seen := ClearOldest(refs, order, targetGPU);
      }
      ClearedMeaning(refs, old(Levels()), Levels(), order, seen);
    }

    /** The clearing loop over the sorted candidates. */
    method ClearOldest(refs: map<Key, int>, order: seq<Node>, targetGPU: int) returns (seen: nat)
      requires Valid() && DistinctLevels(order) && forall i | 0 <= i < |order| :: order[i].key in Levels()
      modifies this`heap, this`gpuUsed, this`freed, this`evictions
      ensures Valid() && ClearedUpTo(refs, old(Levels()), Levels(), order, seen) && (old(Exact()) <==> Exact())
      ensures gpuUsed <= targetGPU || seen == |order|
      ensures evictions - old(evictions) == UnpinnedIn(refs, order, seen)
      ensures SameTraces(old(heap).items, old(freed), heap.items, freed)
    {
      seen := 0;
      ghost var was, items, gone := Levels(), heap.items, freed;
      while seen < |order| && gpuUsed > targetGPU
        invariant Valid() && seen <= |order| && ClearedUpTo(refs, was, Levels(), order, seen) && (old(Exact()) <==> Exact())
        invariant evictions - old(evictions) == UnpinnedIn(refs, order, seen)
        invariant SameTraces(items, gone, heap.items, freed)
        decreases |order| - seen
      {
        ClearNext(refs, order, seen, was, items, gone);
        seen := seen + 1;
      }
    }

    /** One candidate: cleared unless it is pinned. */
    method ClearNext(refs: map<Key, int>, order: seq<Node>, seen: nat, ghost was: map<Key, Node>, ghost items0: seq<Node>, ghost freed0: seq<nat>)
      requires Valid() && seen < |order| && ClearedUpTo(refs, was, Levels(), order, seen) && DistinctLevels(order) && order[seen].key in was
      requires SameTraces(items0, freed0, heap.items, freed)
      modifies this`heap, this`gpuUsed, this`freed, this`evictions
      ensures Valid() && ClearedUpTo(refs, was, Levels(), order, seen + 1) && (old(Exact()) <==> Exact())
      ensures evictions == old(evictions) + if Pinned(refs, order[seen].key) then 0 else 1
      ensures SameTraces(items0, freed0, heap.items, freed)
    {
      ghost var before := Levels();
      if !Pinned(refs, order[seen].key) {
        ClearGpu(order[seen].key);
        SameTracesChain(items0, freed0, old(heap).items, old(freed), heap.items, freed);
      }
      ClearedStep(refs, was, before, Levels(), order, seen);
    }

    method SortedCandidates() returns (order: seq<Node>)
      requires Valid()
      ensures Candidates(Levels(), entries.Keys, order) && Ordering.Ascending(order, ByUse())
    {
      var s := CollectCandidates();
      order := Ordering.Sort(s, ByUse());
      CandidatesSorted(Levels(), entries.Keys, s, order);
    }

    /**
     * CheckDeviceGeneration: on a new generation every level loses its GPU data and GPU-only levels leave the table.
     * The table still lists every heap node afterwards exactly when there was no GPU-only level.
     */
    method CheckDeviceGeneration(generation: nat) returns (changed: bool)
      requires Valid()
      modifies this`heap, this`entries, this`gpuUsed, this`freed, this`evictions, this`deviceGeneration
      ensures Valid() && deviceGeneration == generation && changed == (generation != old(deviceGeneration))
      ensures Levels() == if changed then AfterLoss(old(Levels()), {}) else old(Levels())
      ensures changed ==> Lost(old(Levels()), Levels())
      ensures |heap.items| == |old(heap).items| && (!changed ==> heap == old(heap))
      ensures changed && old(Exact()) ==> (Exact() <==> NoGpuOnly(old(Levels()), {}))
      ensures changed ==> SweptTo(old(entries), old(heap).items, {}, heap.items)
      ensures SameTraces(old(heap).items, old(freed), heap.items, freed)
    {
      if deviceGeneration == generation { return false; }
      deviceGeneration := generation;
      LossStart(Levels(), entries, heap.items);
      LossMeaning(Levels());
      LoseAll(Levels(), entries, heap.items, freed);
      changed := true;
    }

    /** The sweep over the table, in arbitrary order. */
    method LoseAll(ghost was: map<Key, Node>, ghost entries0: map<Key, nat>, ghost items0: seq<Node>, ghost freed0: seq<nat>)
      requires Valid() && Losing(was, was.Keys, entries0, items0) && entries.Keys == was.Keys && SameTraces(items0, freed0, heap.items, freed)
      requires NoGpuOnly(was, was.Keys)
      modifies this`heap, this`entries, this`gpuUsed, this`freed, this`evictions
      ensures Valid() && Losing(was, {}, entries0, items0) && SameTraces(items0, freed0, heap.items, freed)
      ensures Exact() <==> old(Exact()) && NoGpuOnly(was, {})
    {
      var todo := entries.Keys;
      while todo != {}
        invariant Valid() && todo <= was.Keys && Losing(was, todo, entries0, items0) && SameTraces(items0, freed0, heap.items, freed)
        invariant Exact() <==> old(Exact()) && NoGpuOnly(was, todo)
        decreases todo
      {
        var k :| k in todo;
        LoseOne(k, was, todo, entries0, items0, freed0);
        todo := todo - {k};
      }
    }

    /** A device loss with these levels still to be visited. */
    ghost predicate Losing(was: map<Key, Node>, todo: set<Key>, entries0: map<Key, nat>, items0: seq<Node>)
      requires Valid()
      reads this
    {
      && Levels() == AfterLoss(was, todo) && SweptTo(entries0, items0, todo, heap.items)
      && forall l <- entries :: l in entries0 && entries[l] == entries0[l]
    }

    /** One level at device loss: the sweep has one level fewer to go. */
    method LoseOne(k: Key, ghost was: map<Key, Node>, ghost todo: set<Key>, ghost entries0: map<Key, nat>, ghost items0: seq<Node>, ghost freed0: seq<nat>)
      requires Valid() && k in was && k in todo && Losing(was, todo, entries0, items0) && SameTraces(items0, freed0, heap.items, freed)
      modifies this`heap, this`entries, this`gpuUsed, this`freed, this`evictions
      ensures Valid() && Losing(was, todo - {k}, entries0, items0) && SameTraces(items0, freed0, heap.items, freed)
      ensures Exact() <==> old(Exact()) && !GpuOnly(was[k])
      ensures NoGpuOnly(was, todo - {k}) <==> NoGpuOnly(was, todo) && !GpuOnly(was[k])
    {
      LossStep(was, todo, k);
      assert k in Levels() && Levels()[k] == was[k];
      assert At(heap, k, entries[k]);
      var x := heap.items[heap.index[entries[k]]];
      SweepOne(entries0, items0, todo, heap, k);
      if x.gpu > 0 || x.texture != 0 {
        ClearGpu(k);
        SameTracesChain(items0, freed0, old(heap).items, old(freed), heap.items, freed);
        if x.size <= 0 {
          DropKey(heap, entries, usedBytes, gpuUsed, nextNode, k);
          entries := entries - {k};
        }
      }
    }
  }

  /** How often texture t is held by a node or has been handed back. */
  ghost function TracesOf(items: seq<Node>, freed: seq<nat>, t: nat): nat {
    Holding(items, |items|, t) + multiset(freed)[t]
  }

  /** Every texture is still held or has been handed back as often as before. */
  ghost predicate SameTraces(items: seq<Node>, freed: seq<nat>, items': seq<Node>, freed': seq<nat>) {
    forall t: nat | t != 0 :: TracesOf(items, freed, t) == TracesOf(items', freed', t)
  }

  lemma SameTracesChain(a: seq<Node>, fa: seq<nat>, b: seq<Node>, fb: seq<nat>, c: seq<Node>, fc: seq<nat>)
    requires SameTraces(a, fa, b, fb) && SameTraces(b, fb, c, fc)
    ensures SameTraces(a, fa, c, fc)
  {}

  /** A victim's texture moves from the heap to the list of textures handed back. */
  lemma VictimTraces(was: seq<Node>, now: seq<Node>, p: Popped, freed: seq<nat>)
    requires Same(was, now + Off(p))
    ensures SameTraces(was, freed, now, freed + FreedBy(p))
  {
    forall t: nat | t != 0 ensures TracesOf(was, freed, t) == TracesOf(now, freed + FreedBy(p), t) {
      HoldingSame(was, now + Off(p), t);
      if p.Victim? { HoldingAppend(now, p.x, t); } else { assert now + Off(p) == now; }
    }
  }

  /**
   * The victim was the level its key named exactly when the table had its number; if the key named another node, that
   * node is still in the heap although its key has left the table.
   */
  ghost predicate VictimNamed(entries: map<Key, nat>, levels: map<Key, Node>, left: seq<Node>, x: Node) {
    && (x.key in entries <==> x.key in levels)
    && (x.key in entries ==> (levels[x.key] == x <==> entries[x.key] == x.node))
    && (x.key in entries && entries[x.key] != x.node ==> levels[x.key] in multiset(left))
  }

  /** A heap node is the level its key names exactly when the table has its number; otherwise that level stays behind. */
  lemma NamedByKey(entries: map<Key, nat>, was: Heap, h: Heap, x: Node)
    requires Linked(entries, was) && Placed(was) && multiset(was.items) == multiset(h.items + [x])
    ensures VictimNamed(entries, Live(entries, was), h.items, x)
  {
    if x.key in entries {
      assert x in multiset(h.items + [x]);
      var i :| 0 <= i < |was.items| && was.items[i] == x;
      assert At(was, x.key, entries[x.key]);
      var e := was.items[was.index[entries[x.key]]];
      assert e in multiset(was.items);
    }
  }

  lemma ClearTraces(s: seq<Node>, i: nat, more: seq<nat>, freed: seq<nat>)
    requires i < |s| && more == freed + if s[i].texture != 0 then [s[i].texture] else []
    ensures SameTraces(s, freed, s[i := Cleared(s[i])], more)
  {
    forall t: nat | t != 0 ensures TracesOf(s, freed, t) == TracesOf(s[i := Cleared(s[i])], more, t) {
      HoldingUpdate(s, i, Cleared(s[i]), |s|, t);
    }
  }

  lemma RetouchTraces(was: seq<Node>, i: nat, x: Node, now: seq<Node>)
    requires i < |was| && multiset(now) == multiset(was[i := x])
    ensures multiset(now) == multiset(was) - multiset{was[i]} + multiset{x}
    ensures forall t: nat :: Holding(now, |now|, t) == Holding(was, |was|, t) + Has(x, t) - Has(was[i], t)
  {
    forall t: nat ensures Holding(now, |now|, t) == Holding(was, |was|, t) + Has(x, t) - Has(was[i], t) {
      HoldingUpdate(was, i, x, |was|, t);
      HoldingSame(was[i := x], now, t);
    }
  }

  lemma InsertTraces(was: seq<Node>, x: Node, now: seq<Node>)
    requires multiset(now) == multiset(was + [x])
    ensures multiset(now) == multiset(was) + multiset{x}
    ensures forall t: nat :: Holding(now, |now|, t) == Holding(was, |was|, t) + Has(x, t)
  {
    forall t: nat ensures Holding(now, |now|, t) == Holding(was, |was|, t) + Has(x, t) {
      HoldingSame(was + [x], now, t);
      HoldingAppend(was, x, t);
    }
  }

  lemma LruSame(refs: map<Key, int>, victims: seq<Node>, a: seq<Node>, b: seq<Node>)
    requires LeastRecentlyUsed(refs, victims, a) && Same(a, b + Off(Nothing))
    ensures LeastRecentlyUsed(refs, victims, b)
  {
    forall m | 0 <= m < |b| && !Pinned(refs, b[m].key) ensures forall i | 0 <= i < |victims| :: Leq(victims[i], b[m]) {
      assert b + Off(Nothing) == b && b[m] in multiset(b);
      var l :| 0 <= l < |a| && a[l] == b[m];
    }
  }

  lemma BelowSame(next: nat, a: seq<Node>, b: seq<Node>)
    requires multiset(a) == multiset(b) && forall i | 0 <= i < |a| :: a[i].node < next
    ensures forall i | 0 <= i < |b| :: b[i].node < next
  {
    forall i | 0 <= i < |b| ensures b[i].node < next {
      assert b[i] in multiset(b);
      var k :| 0 <= k < |a| && a[k] == b[i];
    }
  }

  /** What keeps every texture's traces keeps textures from being handed back twice. */
  lemma OnceKept(items: seq<Node>, freed: seq<nat>, items': seq<Node>, freed': seq<nat>)
    requires SameTraces(items, freed, items', freed') && forall t: nat | t != 0 :: TracesOf(items, freed, t) <= 1
    ensures forall t: nat | t != 0 :: TracesOf(items', freed', t) <= 1
  {
    forall t: nat | t != 0 ensures TracesOf(items', freed', t) <= 1 {
      assert TracesOf(items, freed, t) <= 1;
    }
  }

  /** With no texture traced twice, none has been handed back twice and none handed back is still held. */
  lemma HandedBackOnce(items: seq<Node>, freed: seq<nat>)
    requires forall t: nat | t != 0 :: TracesOf(items, freed, t) <= 1
    ensures forall i, j | 0 <= i < j < |freed| && freed[i] != 0 :: freed[i] != freed[j]
    ensures forall i, j | 0 <= i < |items| && 0 <= j < |freed| && freed[j] != 0 :: items[i].texture != freed[j]
  {
    forall i, j | 0 <= i < j < |freed| && freed[i] != 0 ensures freed[i] != freed[j] {
      var traces := TracesOf(items, freed, freed[i]);
      if freed[i] == freed[j] { TwiceInList(freed, i, j); }
    }
    forall i, j | 0 <= i < |items| && 0 <= j < |freed| && freed[j] != 0 ensures items[i].texture != freed[j] {
      var traces := TracesOf(items, freed, freed[j]);
      if items[i].texture == freed[j] {
        assert freed[j] in multiset(freed);
        HeldSomewhere(items, |items|, i);
      }
    }
  }

  lemma TwiceInList(s: seq<nat>, i: nat, j: nat)
    requires i < j < |s| && s[i] == s[j]
    ensures multiset(s)[s[i]] >= 2
  {
    assert s == s[..j] + s[j..];
    assert s[i] == s[..j][i] && s[j] == s[j..][0];
  }

  lemma {:induction false} HeldSomewhere(items: seq<Node>, n: nat, i: nat)
    requires i < n <= |items|
    ensures Holding(items, n, items[i].texture) >= 1
  {
    if i < n - 1 { HeldSomewhere(items, n - 1, i); }
  }
}
