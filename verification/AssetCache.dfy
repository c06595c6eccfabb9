/**
 * The cache of decoded asset levels (assets/cache.go): byte accounting, least-recently-used eviction that skips
 * pinned levels, the GPU-only watermark, and device loss. Reference counts are read from the registry's table;
 * the watermark fractions arrive as byte targets. `freed` records the textures handed back to the backend.
 */
module AssetCache {
  import opened LodHeap

  // ----- bags of nodes -----

  ghost predicate DistinctNodes(s: seq<Node>) {
    forall i, j | 0 <= i < j < |s| :: s[i].node != s[j].node
  }

  lemma {:induction false} TwicePositions(a: seq<Node>, x: Node) returns (i: nat, j: nat)
    requires multiset(a)[x] >= 2
    ensures i < j < |a| && a[i] == x && a[j] == x
  {
    var n := |a| - 1;
    assert a == a[..n] + [a[n]];
    if a[n] == x {
      assert x in multiset(a[..n]);
      i :| 0 <= i < n && a[..n][i] == x;
      j := n;
    } else {
      i, j := TwicePositions(a[..n], x);
    }
  }

  /** Rearranging nodes keeps them distinct. */
  lemma DistinctUnderSame(a: seq<Node>, b: seq<Node>)
    requires DistinctNodes(a) && multiset(a) == multiset(b)
    ensures DistinctNodes(b)
  {
    forall i, j | 0 <= i < j < |b| ensures b[i].node != b[j].node {
      assert b[i] in multiset(b) && b[j] in multiset(b);
      var k :| 0 <= k < |a| && a[k] == b[i];
      var l :| 0 <= l < |a| && a[l] == b[j];
      if k == l {
        assert b == b[..j] + b[j..];
        assert b[i] == b[..j][i] && b[j] == b[j..][0];
        assert multiset(b)[b[i]] >= 2;
        var p, q := TwicePositions(a, b[i]);
      }
    }
  }

  lemma PlacedDistinct(h: Heap)
    requires Placed(h)
    ensures DistinctNodes(h.items)
  {}

  // ----- the key table -----

  ghost predicate At(h: Heap, k: Key, n: nat) {
    n in h.index && 0 <= h.index[n] < |h.items| && h.items[h.index[n]].node == n && h.items[h.index[n]].key == k
  }

  /** Every table entry points at a heap node with its key, found at the node's recorded index. */
  ghost predicate Linked(entries: map<Key, nat>, h: Heap) {
    forall k | k in entries :: At(h, k, entries[k])
  }

  /** A node of one heap that is also in a second sits there at its recorded index, unchanged. */
  lemma AtMoves(a: Heap, b: Heap, k: Key, n: nat)
    requires At(a, k, n) && Placed(b) && a.items[a.index[n]] in multiset(b.items)
    ensures At(b, k, n) && b.items[b.index[n]] == a.items[a.index[n]]
  {
    var e := a.items[a.index[n]];
    var j :| 0 <= j < |b.items| && b.items[j] == e;
  }

  function Live(entries: map<Key, nat>, h: Heap): map<Key, Node>
    requires Linked(entries, h)
  {
    map k | k in entries :: assert At(h, k, entries[k]); h.items[h.index[entries[k]]]
  }

  lemma LinkedSame(entries: map<Key, nat>, a: Heap, b: Heap)
    requires Linked(entries, a) && Placed(b) && multiset(a.items) == multiset(b.items)
    ensures Linked(entries, b) && Live(entries, b) == Live(entries, a)
  {
    forall k | k in entries ensures At(b, k, entries[k]) && b.items[b.index[entries[k]]] == a.items[a.index[entries[k]]] {
      assert a.items[a.index[entries[k]]] in multiset(a.items);
      AtMoves(a, b, k, entries[k]);
    }
  }

  /** Taking one node out of the heap and its key out of the table leaves the rest linked. */
  lemma LinkedWithout(entries: map<Key, nat>, a: Heap, b: Heap, x: Node)
    requires Linked(entries, a) && Placed(b) && multiset(a.items) == multiset(b.items) + multiset{x}
    ensures Linked(entries - {x.key}, b) && Live(entries - {x.key}, b) == Live(entries, a) - {x.key}
  {
    forall k | k in entries - {x.key} ensures At(b, k, entries[k]) && b.items[b.index[entries[k]]] == a.items[a.index[entries[k]]] {
      assert a.items[a.index[entries[k]]] in multiset(a.items);
      AtMoves(a, b, k, entries[k]);
    }
  }

  /** Changing the fields of one table entry, but not its node number or key, keeps everything linked and placed. */
  lemma UpdateKeeps(entries: map<Key, nat>, h: Heap, k: Key, x: Node)
    requires Linked(entries, h) && Placed(h) && k in entries && x.node == entries[k] && x.key == k
    ensures At(h, k, entries[k])
    ensures var g := Heap(h.items[h.index[x.node] := x], h.index); Placed(g) && Linked(entries, g) && Live(entries, g) == Live(entries, h)[k := x]
  {
    var i := h.index[x.node];
    var g := Heap(h.items[i := x], h.index);
    forall l | l in entries ensures At(g, l, entries[l]) && g.items[g.index[entries[l]]] == (if l == k then x else h.items[h.index[entries[l]]]) {
      assert At(h, l, entries[l]) && At(h, k, entries[k]);
    }
  }

  lemma LinkedPush(entries: map<Key, nat>, a: Heap, b: Heap, k: Key, x: Node)
    requires Linked(entries, a) && Placed(b) && multiset(b.items) == multiset(a.items) + multiset{x} && x.key == k
    ensures Linked(entries[k := x.node], b) && Live(entries[k := x.node], b) == Live(entries, a)[k := x]
  {
    assert x in multiset(b.items);
    var j :| 0 <= j < |b.items| && b.items[j] == x;
    forall l | l in entries && l != k ensures At(b, l, entries[l]) && b.items[b.index[entries[l]]] == a.items[a.index[entries[l]]] {
      assert a.items[a.index[entries[l]]] in multiset(a.items);
      AtMoves(a, b, l, entries[l]);
    }
  }

  /** The table lists every heap node. */
  ghost predicate Tight(entries: map<Key, nat>, items: seq<Node>) {
    forall i | 0 <= i < |items| :: items[i].key in entries && entries[items[i].key] == items[i].node
  }

  ghost predicate TightBag(entries: map<Key, nat>, items: multiset<Node>) {
    forall x | x in items :: x.key in entries && entries[x.key] == x.node
  }

  lemma TightIsBag(entries: map<Key, nat>, items: seq<Node>)
    ensures Tight(entries, items) <==> TightBag(entries, multiset(items))
  {
    if Tight(entries, items) {
      forall x | x in multiset(items) ensures x.key in entries && entries[x.key] == x.node {
        var i :| 0 <= i < |items| && items[i] == x;
      }
    }
    if TightBag(entries, multiset(items)) {
      forall i | 0 <= i < |items| ensures items[i].key in entries && entries[items[i].key] == items[i].node {
        assert items[i] in multiset(items);
      }
    }
  }

  // ----- popping the least unpinned node -----

  predicate Pinned(refs: map<Key, int>, k: Key) { k in refs && refs[k] > 0 }

  ghost predicate AllPinned(refs: map<Key, int>, s: seq<Node>) {
    forall i | 0 <= i < |s| :: Pinned(refs, s[i].key)
  }

  /** Push nodes back one by one. */
  method PushAll(h0: Heap, xs: seq<Node>) returns (h: Heap)
    requires Ordered(h0.items) && Placed(h0) && DistinctNodes(h0.items + xs)
    ensures Ordered(h.items) && Placed(h) && Same(h0.items + xs, h.items)
  {
    h := h0;
    assert h0.items + xs[..0] == h0.items;
    for n := 0 to |xs|
      invariant Ordered(h.items) && Placed(h) && Same(h0.items + xs[..n], h.items)
    {
      FreshFrom(h0.items, xs, n, h.items);
      ghost var before := h.items;
      h := Push(h, xs[n]);
      SameAppend(h0.items + xs[..n], before, xs[n]);
      assert h0.items + xs[..n] + [xs[n]] == h0.items + xs[..n + 1];
    }
    assert xs[..|xs|] == xs;
  }

  lemma FreshFrom(base: seq<Node>, xs: seq<Node>, n: nat, s: seq<Node>)
    requires DistinctNodes(base + xs) && n < |xs| && Same(base + xs[..n], s)
    ensures forall i | 0 <= i < |s| :: s[i].node != xs[n].node
  {
    forall i | 0 <= i < |s| ensures s[i].node != xs[n].node {
      assert s[i] in multiset(s);
      var front := base + xs[..n];
      var k :| 0 <= k < |front| && front[k] == s[i];
      assert (base + xs)[k] == front[k] && (base + xs)[|base| + n] == xs[n];
    }
  }

  /** Nodes x (unpinned) and skipped (pinned) came off; x is the least of all unpinned nodes. */
  lemma LeastUnpinned(refs: map<Key, int>, was: seq<Node>, now: seq<Node>, skipped: seq<Node>, x: Node)
    requires Same(was, now + skipped) && AllPinned(refs, skipped) && !Pinned(refs, x.key)
    requires forall i | 0 <= i < |now| :: Leq(x, now[i])
    ensures LeastOf(refs, was, x)
  {
    assert multiset(was) == multiset(now) + multiset(skipped);
    forall i | 0 <= i < |was| && !Pinned(refs, was[i].key) ensures Leq(x, was[i]) {
      assert was[i] in multiset(was);
      assert was[i] in multiset(now);
      var k :| 0 <= k < |now| && now[k] == was[i];
    }
  }

  datatype Popped = Nothing | Victim(x: Node)

  function Off(p: Popped): seq<Node> {
    if p.Victim? then [p.x] else []
  }

  ghost predicate LeastOf(refs: map<Key, int>, items: seq<Node>, x: Node) {
    !Pinned(refs, x.key) && forall i | 0 <= i < |items| && !Pinned(refs, items[i].key) :: Leq(x, items[i])
  }

  /** The popping loop: pinned nodes are set aside until an unpinned one appears. */
  method TakeUnpinned(h0: Heap, refs: map<Key, int>) returns (h: Heap, skipped: seq<Node>, p: Popped)
    requires Ordered(h0.items) && Placed(h0)
    ensures Ordered(h.items) && Placed(h) && AllPinned(refs, skipped) && Same(h0.items, h.items + skipped + Off(p))
    ensures p.Nothing? ==> h.items == []
    ensures p.Victim? ==> LeastOf(refs, h0.items, p.x)
  {
    h, skipped, p := h0, [], Nothing;
    assert h.items + skipped == h.items && h.items + skipped + Off(p) == h.items;
    while p.Nothing? && |h.items| > 0
      invariant Taken(refs, h0, h, skipped, p)
      decreases p.Nothing?, |h.items|
    {
      h, skipped, p := TakeNext(h0, refs, h, skipped);
    }
  }

  /** Some pinned nodes are set aside, and perhaps the least unpinned one was found. */
  ghost predicate Taken(refs: map<Key, int>, h0: Heap, h: Heap, skipped: seq<Node>, p: Popped) {
    && Ordered(h.items) && Placed(h) && AllPinned(refs, skipped) && Same(h0.items, h.items + skipped + Off(p))
    && (p.Victim? ==> LeastOf(refs, h0.items, p.x))
  }

  /** One pop: a pinned node is set aside, an unpinned one is the victim. */
  method TakeNext(h0: Heap, refs: map<Key, int>, h: Heap, skipped: seq<Node>) returns (h': Heap, skipped': seq<Node>, p: Popped)
    requires Taken(refs, h0, h, skipped, Nothing) && h.items != []
    ensures Taken(refs, h0, h', skipped', p) && |h'.items| < |h.items|
  {
    assert h.items + skipped + Off(Nothing) == h.items + skipped;
    var x;
    x, h' := Pop(h);
    Moved(h0.items, h.items, h'.items, skipped, x);
    if Pinned(refs, x.key) {
      MorePinned(refs, skipped, x);
      skipped', p := skipped + [x], Nothing;
      assert h'.items + skipped' + Off(p) == h'.items + skipped';
    } else {
      LeastUnpinned(refs, h0.items, h.items, skipped, x);
      skipped', p := skipped, Victim(x);
    }
  }

  /**
   * popMinEvictable: pop until an unpinned node appears, then push the skipped ones back. The victim is unpinned
   * and least by (last use, asset, level) among all unpinned nodes; nothing else leaves the heap. No victim means
   * everything is pinned.
   */
  method PopMinEvictable(h0: Heap, refs: map<Key, int>) returns (h: Heap, p: Popped)
    requires Ordered(h0.items) && Placed(h0)
    ensures Ordered(h.items) && Placed(h) && Same(h0.items, h.items + Off(p))
    ensures p.Nothing? ==> AllPinned(refs, h0.items)
    ensures p.Victim? ==> LeastOf(refs, h0.items, p.x)
  {
    var skipped;
    h, skipped, p := TakeUnpinned(h0, refs);
    ghost var rest := h.items;
    BeforePushBack(h0, rest, skipped, p);
    h := PushAll(h, skipped);
    AfterPushBack(rest + skipped, h.items, p);
    if p.Nothing? { PinnedBag(refs, h0.items, skipped); }
  }

  lemma MorePinned(refs: map<Key, int>, s: seq<Node>, x: Node)
    requires AllPinned(refs, s) && Pinned(refs, x.key)
    ensures AllPinned(refs, s + [x])
  {}

  lemma AfterPushBack(a: seq<Node>, b: seq<Node>, p: Popped)
    requires Same(a, b)
    ensures Same(a + Off(p), b + Off(p))
  {
    if p.Victim? { SameAppend(a, b, p.x); } else { assert a + Off(p) == a && b + Off(p) == b; }
  }

  lemma PinnedBag(refs: map<Key, int>, a: seq<Node>, b: seq<Node>)
    requires multiset(a) == multiset(b) && AllPinned(refs, b)
    ensures AllPinned(refs, a)
  {
    forall i | 0 <= i < |a| ensures Pinned(refs, a[i].key) {
      assert a[i] in multiset(a);
      var k :| 0 <= k < |b| && b[k] == a[i];
    }
  }

  lemma BeforePushBack(h0: Heap, rest: seq<Node>, skipped: seq<Node>, p: Popped)
    requires Placed(h0) && Same(h0.items, rest + skipped + Off(p))
    ensures DistinctNodes(rest + skipped)
  {
    PlacedDistinct(h0);
    var all := rest + skipped + Off(p);
    DistinctUnderSame(h0.items, all);
    forall i, j | 0 <= i < j < |rest + skipped| ensures (rest + skipped)[i].node != (rest + skipped)[j].node {
      assert (rest + skipped)[i] == all[i] && (rest + skipped)[j] == all[j];
    }
  }

  lemma {:induction false} SumsConcat(a: seq<Node>, b: seq<Node>, n: nat)
    requires n <= |b|
    ensures Used(a + b, |a| + n) == Used(a, |a|) + Used(b, n) && Gpu(a + b, |a| + n) == Gpu(a, |a|) + Gpu(b, n)
  {
    if n > 0 { SumsConcat(a, b, n - 1); } else { SumsPrefix(a, a + b, |a|); }
  }

  /** One pop moves the bookkeeping from heap to hand. */
  lemma Moved(was: seq<Node>, before: seq<Node>, after: seq<Node>, skipped: seq<Node>, x: Node)
    requires Same(was, before + skipped) && Same(before, after + [x])
    ensures Same(was, after + (skipped + [x])) && Same(was, after + skipped + [x])
  {
    SumsConcat(before, skipped, |skipped|);
    SumsConcat(after, [x], 1);
    SumsConcat(after, skipped + [x], |skipped| + 1);
    SumsConcat(skipped, [x], 1);
    assert after + skipped + [x] == after + (skipped + [x]);
  }

  // ----- textures -----

  function Has(x: Node, t: nat): nat {
    if x.texture == t then 1 else 0
  }

  /** How many of the first n nodes hold texture t. */
  function Holding(s: seq<Node>, n: nat, t: nat): nat
    requires n <= |s|
  {
    if n == 0 then 0 else Holding(s, n - 1, t) + Has(s[n - 1], t)
  }

  lemma {:induction false} HoldingUpdate(s: seq<Node>, i: nat, x: Node, n: nat, t: nat)
    requires i < |s| && n <= |s|
    ensures Holding(s[i := x], n, t) == Holding(s, n, t) + if i < n then Has(x, t) - Has(s[i], t) else 0
  {
    if n > 0 { HoldingUpdate(s, i, x, n - 1, t); }
  }

  lemma {:induction false} HoldingPrefix(a: seq<Node>, b: seq<Node>, n: nat, t: nat)
    requires n <= |a| && n <= |b| && forall k | 0 <= k < n :: a[k] == b[k]
    ensures Holding(a, n, t) == Holding(b, n, t)
  {
    if n > 0 { HoldingPrefix(a, b, n - 1, t); }
  }

  lemma HoldingAppend(s: seq<Node>, x: Node, t: nat)
    ensures Holding(s + [x], |s| + 1, t) == Holding(s, |s|, t) + Has(x, t)
  {
    HoldingPrefix(s + [x], s, |s|, t);
  }

  lemma RemoveFromBag(s: seq<Node>, k: nat)
    requires k < |s|
    ensures multiset(s[k := s[|s| - 1]][..|s| - 1]) == multiset(s) - multiset{s[k]}
  {
    var n := |s| - 1;
    var u := s[k := s[n]];
    assert u == u[..n] + [s[n]];
    assert multiset(u) == multiset(u[..n]) + multiset{s[n]};
    assert multiset(u) == multiset(s) - multiset{s[k]} + multiset{s[n]};
    assert multiset(u[..n]) == multiset(u) - multiset{s[n]};
  }

  /** The textures held depend on the nodes only, not on their places. */
  lemma {:induction false} HoldingSame(a: seq<Node>, b: seq<Node>, t: nat)
    requires multiset(a) == multiset(b)
    ensures |a| == |b| && Holding(a, |a|, t) == Holding(b, |b|, t)
    decreases |a|
  {
    assert |a| == |multiset(a)| == |multiset(b)| == |b|;
    if a != [] {
      var n := |a| - 1;
      var front := a[..n];
      assert a == front + [a[n]];
      assert a[n] in multiset(b);
      var k :| 0 <= k < |b| && b[k] == a[n];
      var rest := b[k := b[n]][..n];
      RemoveFromBag(b, k);
      HoldingSame(front, rest, t);
      HoldingAppend(front, a[n], t);
      HoldingUpdate(b, k, b[n], |b|, t);
      HoldingPrefix(b[k := b[n]], rest, n, t);
    }
  }

  /** The bytes counted depend on the nodes only, not on their places. */
  lemma {:induction false} UsedSame(a: seq<Node>, b: seq<Node>)
    requires multiset(a) == multiset(b)
    ensures |a| == |b| && Used(a, |a|) == Used(b, |b|)
    decreases |a|
  {
    assert |a| == |multiset(a)| == |multiset(b)| == |b|;
    if a != [] {
      var n := |a| - 1;
      var front := a[..n];
      assert a == front + [a[n]];
      assert a[n] in multiset(b);
      var k :| 0 <= k < |b| && b[k] == a[n];
      var rest := b[k := b[n]][..n];
      RemoveFromBag(b, k);
      UsedSame(front, rest);
      SumsPrefix(a, front, n);
      SumsUpdate(b, k, b[n], |b|);
      SumsPrefix(b[k := b[n]], rest, n);
    }
  }
}
