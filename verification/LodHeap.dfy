/**
 * The indexed min-heap of cached levels of detail (assets/cache.go, over the standard library's container/heap).
 * A heap node is numbered; `index` records where each node sits, as the entry's own index field does. Asset
 * identifiers are numbers in the order of their printed form.
 */
module LodHeap {

  datatype Key = Key(id: nat, lod: int)
  datatype Node = Node(node: nat, key: Key, lastUse: int, size: int, gpu: int, texture: nat)
  datatype Heap = Heap(items: seq<Node>, index: map<nat, int>)

  // ----- order -----

  predicate Less(a: Node, b: Node) {
    if a.lastUse != b.lastUse then a.lastUse < b.lastUse
    else if a.key.id != b.key.id then a.key.id < b.key.id
    else a.key.lod < b.key.lod
  }

  /** a does not come after b. */
  predicate Leq(a: Node, b: Node) { !Less(b, a) }

  function Parent(k: nat): nat
    requires k > 0
  {
    (k - 1) / 2
  }

  ghost predicate OrderedAt(s: seq<Node>, k: nat)
    requires 0 < k < |s|
  {
    Leq(s[Parent(k)], s[k])
  }

  ghost predicate Ordered(s: seq<Node>) {
    forall k | 0 < k < |s| :: OrderedAt(s, k)
  }

  /** The children of i do not come before i's parent. */
  ghost predicate Bridged(s: seq<Node>, i: nat)
    requires i < |s|
  {
    i > 0 ==> forall k | 0 < k < |s| && Parent(k) == i :: Leq(s[Parent(i)], s[k])
  }

  /** Ordered except possibly between i and its children and between i and its parent. */
  ghost predicate BrokenAt(s: seq<Node>, i: nat)
    requires i < |s|
  {
    (forall k | 0 < k < |s| && k != i && Parent(k) != i :: OrderedAt(s, k)) && Bridged(s, i)
  }

  /** Ordered except possibly between i and its parent. */
  ghost predicate LowAt(s: seq<Node>, i: nat)
    requires i < |s|
  {
    (forall k | 0 < k < |s| && k != i :: OrderedAt(s, k)) && Bridged(s, i)
  }

  /** The root of an ordered heap comes before every node. */
  lemma {:induction false} RootIsLeast(s: seq<Node>, k: nat)
    requires Ordered(s) && k < |s|
    ensures Leq(s[0], s[k])
  {
    if k > 0 {
      RootIsLeast(s, Parent(k));
      assert OrderedAt(s, k);
    }
  }

  // ----- contents -----

  function Used(s: seq<Node>, n: nat): int
    requires n <= |s|
  {
    if n == 0 then 0 else Used(s, n - 1) + s[n - 1].size
  }

  function Gpu(s: seq<Node>, n: nat): int
    requires n <= |s|
  {
    if n == 0 then 0 else Gpu(s, n - 1) + s[n - 1].gpu
  }

  lemma {:induction false} SumsUpdate(s: seq<Node>, i: nat, x: Node, n: nat)
    requires i < |s| && n <= |s|
    ensures Used(s[i := x], n) == Used(s, n) + if i < n then x.size - s[i].size else 0
    ensures Gpu(s[i := x], n) == Gpu(s, n) + if i < n then x.gpu - s[i].gpu else 0
  {
    if n > 0 { SumsUpdate(s, i, x, n - 1); }
  }

  lemma {:induction false} SumsPrefix(a: seq<Node>, b: seq<Node>, n: nat)
    requires n <= |a| && n <= |b| && forall k | 0 <= k < n :: a[k] == b[k]
    ensures Used(a, n) == Used(b, n) && Gpu(a, n) == Gpu(b, n)
  {
    if n > 0 { SumsPrefix(a, b, n - 1); }
  }

  /** Same nodes, possibly elsewhere; the two byte totals agree. */
  ghost predicate Same(a: seq<Node>, b: seq<Node>) {
    |a| == |b| && multiset(a) == multiset(b) && Used(a, |a|) == Used(b, |b|) && Gpu(a, |a|) == Gpu(b, |b|)
  }

  /** Every node's recorded index is its position (so no node appears twice). */
  ghost predicate Placed(h: Heap) {
    forall i | 0 <= i < |h.items| :: h.items[i].node in h.index && h.index[h.items[i].node] == i
  }

  function Swap(h: Heap, i: nat, j: nat): Heap
    requires i < |h.items| && j < |h.items|
  {
    var a, b := h.items[i], h.items[j];
    Heap(h.items[i := b][j := a], h.index[b.node := i][a.node := j])
  }

  lemma SwapKeeps(h: Heap, i: nat, j: nat)
    requires i < |h.items| && j < |h.items| && Placed(h)
    ensures Placed(Swap(h, i, j)) && Same(h.items, Swap(h, i, j).items)
  {
    var s, a, b := h.items, h.items[i], h.items[j];
    SumsUpdate(s, i, b, |s|);
    SumsUpdate(s[i := b], j, a, |s|);
  }

  // ----- sifting -----

  lemma LeqTotal(a: Node, b: Node, c: Node)
    ensures Leq(a, b) || Leq(b, a)
    ensures Leq(a, b) && Leq(b, c) ==> Leq(a, c)
    ensures Less(a, b) ==> Leq(a, b)
  {}

  /** Swapping the broken position with its least child moves the break down. */
  lemma SinkStep(s: seq<Node>, i: nat, j: nat)
    requires i < |s| && 0 < j < |s| && Parent(j) == i && BrokenAt(s, i) && Less(s[j], s[i])
    requires forall k | 0 < k < |s| && Parent(k) == i :: Leq(s[j], s[k])
    ensures BrokenAt(s[i := s[j]][j := s[i]], j) && OrderedAt(s[i := s[j]][j := s[i]], j)
    ensures i > 0 ==> OrderedAt(s[i := s[j]][j := s[i]], i)
  {
    var t := s[i := s[j]][j := s[i]];
    forall k | 0 < k < |t| && k != j && Parent(k) != j ensures OrderedAt(t, k) {
      if k != i && Parent(k) != i { assert OrderedAt(s, k); }
    }
    forall k | 0 < k < |t| && Parent(k) == j ensures Leq(t[Parent(j)], t[k]) {
      assert OrderedAt(s, k);
    }
  }

  /** container/heap's down: returns the heap and whether the node moved. */
  method Down(h0: Heap, i0: nat) returns (h: Heap, moved: bool)
    requires i0 < |h0.items| && BrokenAt(h0.items, i0) && Placed(h0)
    ensures Placed(h) && Same(h0.items, h.items)
    ensures moved ==> Ordered(h.items)
    ensures !moved ==> h == h0 && LowAt(h.items, i0)
  {
    h := h0;
    var i: nat := i0;
    var j, low := LowerChild(h.items, i);
    while low
      invariant i0 <= i < |h.items| && Placed(h) && Same(h0.items, h.items) && BrokenAt(h.items, i)
      invariant i == i0 ==> h == h0
      invariant i > i0 ==> OrderedAt(h.items, i)
      invariant ChildChoice(h.items, i, j, low)
      decreases |h.items| - i
    {
      SinkStep(h.items, i, j);
      SwapKeeps(h, i, j);
      h := Swap(h, i, j);
      i := j;
      j, low := LowerChild(h.items, i);
    }
    moved := i > i0;
    Restored(h.items, i);
  }

  /** j is the least child of i and comes before i; or no child comes before i. */
  ghost predicate ChildChoice(s: seq<Node>, i: nat, j: nat, low: bool)
    requires i < |s|
  {
    if low then 0 < j < |s| && Parent(j) == i && Less(s[j], s[i]) && forall k | 0 < k < |s| && Parent(k) == i :: Leq(s[j], s[k])
    else forall k | 0 < k < |s| && Parent(k) == i :: OrderedAt(s, k)
  }

  method LowerChild(s: seq<Node>, i: nat) returns (j: nat, low: bool)
    requires i < |s|
    ensures ChildChoice(s, i, j, low)
  {
    j := 2 * i + 1;
    if j >= |s| { return j, false; }
    if j + 1 < |s| && Less(s[j + 1], s[j]) { j := j + 1; }
    low := Less(s[j], s[i]);
    if low { LeastChild(s, i, j); } else { ChildrenAbove(s, i, j); }
  }

  predicate LeastOfChildren(s: seq<Node>, i: nat, j: nat) {
    && (j == 2 * i + 1 || j == 2 * i + 2) && j < |s|
    && (2 * i + 1 < |s| ==> Leq(s[j], s[2 * i + 1])) && (2 * i + 2 < |s| ==> Leq(s[j], s[2 * i + 2]))
  }

  lemma LeastChild(s: seq<Node>, i: nat, j: nat)
    requires i < |s| && LeastOfChildren(s, i, j)
    ensures Parent(j) == i && forall k | 0 < k < |s| && Parent(k) == i :: Leq(s[j], s[k])
  {
    forall k | 0 < k < |s| && Parent(k) == i ensures Leq(s[j], s[k]) {
      assert k == 2 * i + 1 || k == 2 * i + 2;
    }
  }

  lemma ChildrenAbove(s: seq<Node>, i: nat, j: nat)
    requires i < |s| && LeastOfChildren(s, i, j) && !Less(s[j], s[i])
    ensures forall k | 0 < k < |s| && Parent(k) == i :: OrderedAt(s, k)
  {
    LeastChild(s, i, j);
    forall k | 0 < k < |s| && Parent(k) == i ensures OrderedAt(s, k) {
      LeqTotal(s[i], s[j], s[k]);
    }
  }

  lemma Restored(s: seq<Node>, i: nat)
    requires i < |s| && BrokenAt(s, i) && forall k | 0 < k < |s| && Parent(k) == i :: OrderedAt(s, k)
    ensures LowAt(s, i)
    ensures (i > 0 ==> OrderedAt(s, i)) ==> Ordered(s)
  {
    forall k | 0 < k < |s| && k != i ensures OrderedAt(s, k) {
      if Parent(k) != i { assert OrderedAt(s, k); }
    }
  }

  /** Swapping a low node with its parent moves the break up. */
  lemma RiseStep(s: seq<Node>, j: nat)
    requires 0 < j < |s| && LowAt(s, j) && Less(s[j], s[Parent(j)])
    ensures LowAt(s[Parent(j) := s[j]][j := s[Parent(j)]], Parent(j))
  {
    var p := Parent(j);
    var t := s[p := s[j]][j := s[p]];
    forall k | 0 < k < |t| && k != p ensures OrderedAt(t, k) {
      if k != j { assert OrderedAt(s, k); }
      if k != j && Parent(k) == p { LeqTotal(s[j], s[p], s[k]); }
    }
    if p > 0 {
      assert OrderedAt(s, p);
      forall k | 0 < k < |t| && Parent(k) == p ensures Leq(t[Parent(p)], t[k]) {
        if k != j { assert OrderedAt(s, k); LeqTotal(s[Parent(p)], s[p], s[k]); }
      }
    }
  }

  /** container/heap's up. */
  method Up(h0: Heap, j0: nat) returns (h: Heap)
    requires j0 < |h0.items| && LowAt(h0.items, j0) && Placed(h0)
    ensures Placed(h) && Same(h0.items, h.items) && Ordered(h.items)
  {
    h := h0;
    var j: nat := j0;
    while j > 0 && Less(h.items[j], h.items[Parent(j)])
      invariant j < |h.items| && Placed(h) && Same(h0.items, h.items) && LowAt(h.items, j)
    {
      RiseStep(h.items, j);
      SwapKeeps(h, Parent(j), j);
      h := Swap(h, Parent(j), j);
      j := Parent(j);
    }
    forall k | 0 < k < |h.items| ensures OrderedAt(h.items, k) {}
  }

  /** heap.Fix after the node at i changed: the order is restored and no node is lost. */
  method Fix(h0: Heap, i: nat) returns (h: Heap)
    requires i < |h0.items| && BrokenAt(h0.items, i) && Placed(h0)
    ensures Placed(h) && Same(h0.items, h.items) && Ordered(h.items)
  {
    var moved;
    h, moved := Down(h0, i);
    if !moved { h := Up(h, i); }
  }

  lemma ChangedIsBroken(s: seq<Node>, i: nat, x: Node)
    requires Ordered(s) && i < |s|
    ensures BrokenAt(s[i := x], i)
  {
    var t := s[i := x];
    forall k | 0 < k < |t| && k != i && Parent(k) != i ensures OrderedAt(t, k) {
      assert OrderedAt(s, k);
    }
    if i > 0 {
      assert OrderedAt(s, i);
      forall k | 0 < k < |t| && Parent(k) == i ensures Leq(t[Parent(i)], t[k]) {
        assert OrderedAt(s, k);
        LeqTotal(s[Parent(i)], s[i], s[k]);
      }
    }
  }

  /** heap.Push. */
  method Push(h0: Heap, x: Node) returns (h: Heap)
    requires Ordered(h0.items) && Placed(h0) && forall i | 0 <= i < |h0.items| :: h0.items[i].node != x.node
    ensures Ordered(h.items) && Placed(h) && Same(h0.items + [x], h.items)
  {
    h := Heap(h0.items + [x], h0.index[x.node := |h0.items|]);
    forall k | 0 < k < |h.items| && k != |h0.items| ensures OrderedAt(h.items, k) {
      assert OrderedAt(h0.items, k);
    }
    h := Up(h, |h0.items|);
  }

  /** heap.Pop: the least node leaves, the rest stay ordered. */
  method Pop(h0: Heap) returns (x: Node, h: Heap)
    requires Ordered(h0.items) && Placed(h0) && h0.items != []
    ensures Ordered(h.items) && Placed(h) && Same(h0.items, h.items + [x])
    ensures forall i | 0 <= i < |h0.items| :: Leq(x, h0.items[i])
  {
    var n := |h0.items| - 1;
    forall i | 0 <= i < |h0.items| ensures Leq(h0.items[0], h0.items[i]) { RootIsLeast(h0.items, i); }
    SwapKeeps(h0, 0, n);
    var s := Swap(h0, 0, n);
    x := s.items[n];
    h := Heap(s.items[..n], s.index[x.node := -1]);
    assert s.items == h.items + [x];
    ShrinkKeeps(s, n);
    if n > 0 {
      RootBroken(h0.items, h.items, n);
      ghost var before := h.items;
      var moved;
      h, moved := Down(h, 0);
      SameAppend(before, h.items, x);
    }
  }

  lemma ShrinkKeeps(s: Heap, n: nat)
    requires Placed(s) && |s.items| == n + 1
    ensures Placed(Heap(s.items[..n], s.index[s.items[n].node := -1]))
  {}

  lemma RootBroken(s: seq<Node>, t: seq<Node>, n: nat)
    requires Ordered(s) && 0 < n && |s| == n + 1 && |t| == n && t[0] == s[n] && forall k | 0 < k < n :: t[k] == s[k]
    ensures BrokenAt(t, 0)
  {
    forall k | 0 < k < |t| && Parent(k) != 0 ensures OrderedAt(t, k) {
      assert OrderedAt(s, k);
    }
  }

  lemma SameAppend(a: seq<Node>, b: seq<Node>, x: Node)
    requires Same(a, b)
    ensures Same(a + [x], b + [x])
  {
    SumsPrefix(a, a + [x], |a|);
    SumsPrefix(b, b + [x], |b|);
  }
}
