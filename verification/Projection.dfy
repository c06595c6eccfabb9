/**
 * The projection tree walk (projection/projection.go): a pre-order node list built with an explicit stack,
 * a reverse pass that aggregates "has a layer below", and a gated walk that prunes by that flag.
 */
module Projection {
  import opened FacetTree

  /**
   * One facet. `layer`: the resolver has a projection layer for it; `unmounted`: attached as a layer whose
   * mount store reads false; `arranged`/`empty`: it has a layout role, arranged to empty bounds.
   */
  datatype Look = Look(layer: bool, unmounted: bool, arranged: bool, empty: bool, poisoned: bool, regions: nat)

  type Facet = Tree<Look>

  /** The definition the aggregation must meet: this node or some descendant is a layer. */
  predicate HasLayer(t: Facet) {
    exists n <- Preorder(t) :: n.data.layer
  }

  // ----- recursive form of the aggregation -----

  /** One step of the reverse pass computes the definition from the children's values. */
  lemma HasLayerUnfolds(t: Facet)
    ensures HasLayer(t) <==> t.data.layer || exists k | 0 <= k < |t.children| :: HasLayer(t.children[k])
  {
    if HasLayer(t) {
      var n :| n in Preorder(t) && n.data.layer;
      if n in Forest(t.children) {
        ForestHas(t.children, n);
        var k :| 0 <= k < |t.children| && n in Preorder(t.children[k]);
        assert HasLayer(t.children[k]);
      }
    }
    if t.data.layer { assert t in Preorder(t); }
    forall k | 0 <= k < |t.children| && HasLayer(t.children[k]) ensures HasLayer(t) {
      var n :| n in Preorder(t.children[k]) && n.data.layer;
      ForestHas(t.children, n);
      assert n in Preorder(t);
    }
  }

  // ----- nodes -----

  class ProjectionNode {
    const facet: Facet
    var children: seq<ProjectionNode>
    var subtreeHasLayer: bool

    constructor (facet: Facet)
      ensures this.facet == facet && children == []
    {
      this.facet := facet;
      children, subtreeHasLayer := [], false;
    }
  }

  function Facets(nodes: seq<ProjectionNode>): (r: seq<Facet>)
    ensures |r| == |nodes| && forall i | 0 <= i < |nodes| :: r[i] == nodes[i].facet
  {
    seq(|nodes|, i requires 0 <= i < |nodes| => nodes[i].facet)
  }

  ghost predicate AllDistinct(nodes: seq<ProjectionNode>) {
    forall i, j | 0 <= i < j < |nodes| :: nodes[i] != nodes[j]
  }

  /** A child is accounted for: it comes later in the list or still waits on the stack. */
  ghost predicate Placed(c: ProjectionNode, list: seq<ProjectionNode>, i: nat, stack: seq<ProjectionNode>)
    requires i < |list|
  {
    c in list[i + 1..] || c in stack
  }

  /** Built nodes mirror their facet and all their children are accounted for. */
  ghost predicate Growing(list: seq<ProjectionNode>, stack: seq<ProjectionNode>)
    reads list
  {
    forall i | 0 <= i < |list| :: Facets(list[i].children) == list[i].facet.children && forall c <- list[i].children :: Placed(c, list, i, stack)
  }

  /** The node list is complete: distinct nodes, each with its facet's children, all of them later in the list. */
  ghost predicate Linked(list: seq<ProjectionNode>)
    reads list
  {
    AllDistinct(list) && Growing(list, [])
  }

  /** The bottom-up pass: in reverse pre-order every child is final before its parent is computed. */
  method Aggregate(list: seq<ProjectionNode>)
    requires Linked(list)
    modifies list
    ensures forall i | 0 <= i < |list| :: list[i].subtreeHasLayer == HasLayer(list[i].facet)
    ensures forall i | 0 <= i < |list| :: list[i].children == old(list[i].children)
  {
    var i := |list|;
    while i > 0
      invariant 0 <= i <= |list| && Linked(list)
      invariant forall j | 0 <= j < |list| :: list[j].children == old(list[j].children)
      invariant forall j | i <= j < |list| :: list[j].subtreeHasLayer == HasLayer(list[j].facet)
    {
      i := i - 1;
      AggregateOne(list, i, list[i]);
    }
  }

  method AggregateOne(list: seq<ProjectionNode>, i: nat, n: ProjectionNode)
    requires i < |list| && list[i] == n && Linked(list)
    requires forall j | i < j < |list| :: list[j].subtreeHasLayer == HasLayer(list[j].facet)
    modifies n`subtreeHasLayer
    ensures n.subtreeHasLayer == HasLayer(n.facet)
  {
    var has := n.facet.data.layer;
    assert |Facets(n.children)| == |n.facet.children|;
    for k := 0 to |n.children|
      invariant has <==> n.facet.data.layer || exists c | 0 <= c < k :: HasLayer(n.facet.children[c])
    {
      assert Placed(n.children[k], list, i, []);
      assert Facets(n.children)[k] == n.facet.children[k];
      if n.children[k].subtreeHasLayer { has := true; }
    }
    HasLayerUnfolds(n.facet);
    n.subtreeHasLayer := has;
  }

  // ----- the gated walk -----

  predicate Gated(t: Facet) {
    t.data.unmounted || (!t.data.layer && t.data.arranged && t.data.empty)
  }

  predicate Pruned(t: Facet) {
    Gated(t) && !HasLayer(t)
  }

  /** The outputs of walkNode in order: every reached facet, descending unless pruned, skipping poisoned children. */
  function Walk(t: Facet): seq<Facet>
    decreases t
  {
    [t] + if Pruned(t) then [] else WalkAll(t.children)
  }

  function WalkAll(ts: seq<Facet>): seq<Facet>
    decreases ts
  {
    if ts == [] then [] else (if ts[0].data.poisoned then [] else Walk(ts[0])) + WalkAll(ts[1..])
  }

  function WalkWaiting(stack: seq<Facet>): seq<Facet> {
    if stack == [] then [] else Walk(stack[|stack| - 1]) + WalkWaiting(stack[..|stack| - 1])
  }

  lemma WalkPush(stack: seq<Facet>, t: Facet)
    ensures WalkWaiting(stack + [t]) == Walk(t) + WalkWaiting(stack)
  {
    assert (stack + [t])[..|stack|] == stack;
  }

  /** Push the children to visit, last child first, so the first child ends on top; poisoned ones are left out. */
  method PushChildren(stack: seq<ProjectionNode>, kids: seq<ProjectionNode>) returns (stack': seq<ProjectionNode>)
    ensures WalkWaiting(Facets(stack')) == WalkAll(Facets(kids)) + WalkWaiting(Facets(stack))
    ensures forall x <- stack' :: x in stack || x in kids
  {
    stack' := stack;
    var i := |kids|;
    ghost var rest, ts := WalkWaiting(Facets(stack)), Facets(kids);
    assert [] + rest == rest;
    while i > 0
      invariant 0 <= i <= |kids|
      invariant WalkWaiting(Facets(stack')) == WalkAll(ts[i..]) + rest
      invariant forall x <- stack' :: x in stack || x in kids
    {
      i := i - 1;
      PushOne(Facets(stack'), ts, i, rest);
      if !kids[i].facet.data.poisoned {
        assert Facets(stack' + [kids[i]]) == Facets(stack') + [ts[i]];
        stack' := stack' + [kids[i]];
      }
    }
    assert ts[0..] == ts;
  }

  lemma PushOne(stack: seq<Facet>, ts: seq<Facet>, i: nat, rest: seq<Facet>)
    requires i < |ts| && WalkWaiting(stack) == WalkAll(ts[i + 1..]) + rest
    ensures WalkWaiting(if ts[i].data.poisoned then stack else stack + [ts[i]]) == WalkAll(ts[i..]) + rest
  {
    assert ts[i..][0] == ts[i] && ts[i..][1..] == ts[i + 1..];
    var below := WalkAll(ts[i + 1..]);
    if ts[i].data.poisoned {
      assert [] + below == below;
    } else {
      WalkPush(stack, ts[i]);
      assert Walk(ts[i]) + (below + rest) == (Walk(ts[i]) + below) + rest;
    }
  }

  /** What one reached facet contributes to the frame; a gated one contributes nothing visible. */
  datatype Output = Output(facet: nat, materialised: bool, regions: nat)

  function OutputOf(t: Facet): Output {
    if Gated(t) then Output(t.id, false, 0) else Output(t.id, true, t.data.regions)
  }

  function Outputs(ts: seq<Facet>): (r: seq<Output>)
    ensures |r| == |ts| && forall i | 0 <= i < |ts| :: r[i] == OutputOf(ts[i])
  {
    seq(|ts|, i requires 0 <= i < |ts| => OutputOf(ts[i]))
  }

  /** The nodes as the walk finds them: children linked and in the list, the aggregated flag exact. */
  ghost predicate Walkable(list: seq<ProjectionNode>)
    reads list
  {
    forall n <- list :: WalkableNode(n, list)
  }

  ghost predicate WalkableNode(n: ProjectionNode, list: seq<ProjectionNode>)
    reads n
  {
    Facets(n.children) == n.facet.children && n.subtreeHasLayer == HasLayer(n.facet) && forall c <- n.children :: c in list
  }

  lemma BuiltIsWalkable(list: seq<ProjectionNode>)
    requires Linked(list) && forall i | 0 <= i < |list| :: list[i].subtreeHasLayer == HasLayer(list[i].facet)
    ensures Walkable(list)
  {
    forall n | n in list ensures WalkableNode(n, list) {
      var i :| 0 <= i < |list| && list[i] == n;
      forall c | c in n.children ensures c in list {
        assert Placed(c, list, i, []);
      }
    }
  }

  /** One popped facet: what it emits and what is left to walk. */
  lemma WalkPop(stack: seq<ProjectionNode>, done: seq<Facet>)
    requires stack != []
    ensures
      var n, rest := stack[|stack| - 1], stack[..|stack| - 1];
      var kids := if Pruned(n.facet) then [] else WalkAll(n.facet.children);
      && done + WalkWaiting(Facets(stack)) == (done + [n.facet]) + (kids + WalkWaiting(Facets(rest)))
      && |WalkWaiting(Facets(stack))| == 1 + |kids + WalkWaiting(Facets(rest))|
  {
    var n, rest := stack[|stack| - 1], stack[..|stack| - 1];
    assert Facets(stack)[..|stack| - 1] == Facets(rest);
    var kids := if Pruned(n.facet) then [] else WalkAll(n.facet.children);
    assert WalkWaiting(Facets(stack)) == [n.facet] + (kids + WalkWaiting(Facets(rest)));
  }

  /**
   * walkNode on the built nodes: pop, emit, prune by the aggregated flag, push the children. It emits exactly the
   * recursive walk of the facet tree, in its order.
   */
  method WalkNode(node: ProjectionNode, ghost list: seq<ProjectionNode>) returns (visited: seq<Facet>, outputs: seq<Output>)
    requires Walkable(list) && node in list
    ensures visited == Walk(node.facet) && outputs == Outputs(visited)
  {
    visited, outputs := [], [];
    var stack := [node];
    assert Facets(stack) == [] + [node.facet];
    WalkPush([], node.facet);
    assert Walk(node.facet) + [] == Walk(node.facet);
    while stack != []
      invariant forall x <- stack :: x in list
      invariant visited + WalkWaiting(Facets(stack)) == Walk(node.facet)
      invariant outputs == Outputs(visited)
      decreases |WalkWaiting(Facets(stack))|
    {
      WalkPop(stack, visited);
      var n := stack[|stack| - 1];
      assert n in stack && WalkableNode(n, list);
      stack := stack[..|stack| - 1];
      visited := visited + [n.facet];
      outputs := outputs + [OutputOf(n.facet)];
      ghost var below := WalkWaiting(Facets(stack));
      if Gated(n.facet) && !n.subtreeHasLayer {
        assert [] + below == below;
      } else {
        stack := PushChildren(stack, n.children);
      }
    }
    assert visited + [] == visited;
  }

  // ----- what the walk reaches -----

  predicate NoPoison(t: Facet) {
    forall n <- Preorder(t) :: !n.data.poisoned
  }

  lemma {:induction false} WalkAllHas(ts: seq<Facet>, n: Facet)
    ensures n in WalkAll(ts) <==> exists k | 0 <= k < |ts| :: !ts[k].data.poisoned && n in Walk(ts[k])
  {
    if ts != [] {
      WalkAllHas(ts[1..], n);
      if n in WalkAll(ts[1..]) {
        var k :| 0 <= k < |ts[1..]| && !ts[1..][k].data.poisoned && n in Walk(ts[1..][k]);
        assert ts[k + 1] == ts[1..][k];
      }
      if exists k | 0 <= k < |ts| :: !ts[k].data.poisoned && n in Walk(ts[k]) {
        var k :| 0 <= k < |ts| && !ts[k].data.poisoned && n in Walk(ts[k]);
        assert k > 0 ==> ts[1..][k - 1] == ts[k];
      }
    }
  }

  /** Without poisoned facets the walk reaches every layer facet, however deep under gated ones. */
  lemma {:induction false} EveryLayerReached(t: Facet, n: Facet)
    requires NoPoison(t) && n in Preorder(t) && n.data.layer
    ensures n in Walk(t)
    decreases t
  {
    if n != t {
      assert n in Forest(t.children);
      ForestHas(t.children, n);
      var k :| 0 <= k < |t.children| && n in Preorder(t.children[k]);
      assert HasLayer(t.children[k]);
      HasLayerUnfolds(t);
      forall m | m in Preorder(t.children[k]) ensures m in Preorder(t) {
        ForestHas(t.children, m);
      }
      EveryLayerReached(t.children[k], n);
      assert t.children[k] in Preorder(t.children[k]);
      WalkAllHas(t.children, n);
    }
  }

  /** Mounted, and not arranged to empty bounds unless it is a layer itself. */
  predicate Visible(d: Look) {
    !d.unmounted && (d.layer || !d.arranged || !d.empty)
  }

  /** The children numbered by `path` lead from t to n past no poisoned child and through no facet that ends the walk. */
  ghost predicate Leads(t: Facet, path: seq<nat>, n: Facet)
    decreases |path|
  {
    if path == [] then n == t
    else
      && path[0] < |t.children| && !t.children[path[0]].data.poisoned
      && (Visible(t.data) || exists m <- Preorder(t) :: m.data.layer)
      && Leads(t.children[path[0]], path[1..], n)
  }

  ghost predicate Reachable(t: Facet, n: Facet) {
    exists path: seq<nat> :: Leads(t, path, n)
  }

  lemma {:induction false} LedIsWalked(t: Facet, path: seq<nat>, n: Facet)
    requires Leads(t, path, n)
    ensures n in Walk(t)
    decreases |path|
  {
    if path != [] {
      LedIsWalked(t.children[path[0]], path[1..], n);
      WalkAllHas(t.children, n);
    }
  }

  lemma {:induction false} WalkedIsLed(t: Facet, n: Facet) returns (path: seq<nat>)
    requires n in Walk(t)
    ensures Leads(t, path, n)
    decreases t
  {
    path := [];
    if n != t {
      WalkAllHas(t.children, n);
      var k :| 0 <= k < |t.children| && !t.children[k].data.poisoned && n in Walk(t.children[k]);
      var rest := WalkedIsLed(t.children[k], n);
      path := [k] + rest;
      assert path[1..] == rest;
    }
  }

  /** The walk visits exactly the facets that can be reached. */
  lemma WalkedIffReachable(t: Facet, n: Facet)
    ensures n in Walk(t) <==> Reachable(t, n)
  {
    if n in Walk(t) { var path := WalkedIsLed(t, n); }
    if Reachable(t, n) {
      var path :| Leads(t, path, n);
      LedIsWalked(t, path, n);
    }
  }

  /** Every facet from t down to n is visible and none below t is poisoned. */
  ghost predicate OpenWay(t: Facet, path: seq<nat>, n: Facet)
    decreases |path|
  {
    && Visible(t.data)
    && if path == [] then n == t else path[0] < |t.children| && !t.children[path[0]].data.poisoned && OpenWay(t.children[path[0]], path[1..], n)
  }

  /** A visible facet under visible facets only, with no poison on the way, is visited and materialised with all its regions. */
  lemma {:induction false} OpenIsShown(t: Facet, path: seq<nat>, n: Facet)
    requires OpenWay(t, path, n)
    ensures n in Walk(t) && OutputOf(n) == Output(n.id, true, n.data.regions)
    decreases |path|
  {
    if path != [] {
      OpenIsShown(t.children[path[0]], path[1..], n);
      WalkAllHas(t.children, n);
    }
  }

  /** An invisible facet without a layer below it is all the walk visits of its subtree. */
  lemma HiddenIsPruned(t: Facet)
    requires !Visible(t.data) && forall m <- Preorder(t) :: !m.data.layer
    ensures Walk(t) == [t] && OutputOf(t) == Output(t.id, false, 0)
  {}

  /** `a` can be obtained from `b` by leaving elements out. */
  ghost predicate Subsequence<T>(a: seq<T>, b: seq<T>)
    decreases |b|
  {
    a == [] || (b != [] && ((a[0] == b[0] && Subsequence(a[1..], b[1..])) || Subsequence(a, b[1..])))
  }

  lemma {:induction false} SubsequenceAppend<T>(a: seq<T>, b: seq<T>, c: seq<T>, d: seq<T>)
    requires Subsequence(a, b) && Subsequence(c, d)
    ensures Subsequence(a + c, b + d)
    decreases |b|
  {
    if b == [] {
      assert a + c == c && b + d == d;
    } else {
      assert (b + d)[1..] == b[1..] + d;
      if a != [] && a[0] == b[0] && Subsequence(a[1..], b[1..]) {
        assert (a + c)[1..] == a[1..] + c;
        SubsequenceAppend(a[1..], b[1..], c, d);
      } else if a == [] {
        SubsequenceAppend([], b[1..], c, d);
        assert [] + c == c && a + c == c;
      } else {
        SubsequenceAppend(a, b[1..], c, d);
      }
    }
  }

  /** Outputs are emitted in pre-order. */
  lemma {:induction false} WalkInPreorder(t: Facet)
    ensures Subsequence(Walk(t), Preorder(t))
    decreases t
  {
    if !Pruned(t) {
      WalkAllInPreorder(t.children);
      assert ([t] + WalkAll(t.children))[1..] == WalkAll(t.children) && ([t] + Forest(t.children))[1..] == Forest(t.children);
    } else {
      assert [t][1..] == [];
    }
  }

  lemma {:induction false} WalkAllInPreorder(ts: seq<Facet>)
    ensures Subsequence(WalkAll(ts), Forest(ts))
    decreases ts
  {
    if ts != [] {
      WalkAllInPreorder(ts[1..]);
      if !ts[0].data.poisoned {
        WalkInPreorder(ts[0]);
        SubsequenceAppend(Walk(ts[0]), Preorder(ts[0]), WalkAll(ts[1..]), Forest(ts[1..]));
      } else {
        SubsequenceAppend([], Preorder(ts[0]), WalkAll(ts[1..]), Forest(ts[1..]));
      }
    }
  }

  // ----- hit map -----

  predicate Bears(o: Output) {
    o.regions > 0
  }

  function HitBearing(outputs: seq<Output>, n: nat): seq<Output>
    requires n <= |outputs|
  {
    if n == 0 then [] else HitBearing(outputs, n - 1) + if Bears(outputs[n - 1]) then [outputs[n - 1]] else []
  }

  /** The hit-bearing outputs from position n on, at positions `at`: exactly those, from the last to the first. */
  ghost predicate FromTheTop(entries: seq<Output>, outputs: seq<Output>, at: seq<nat>, n: nat) {
    && |entries| == |at| && (forall i | 0 <= i < |at| :: n <= at[i] < |outputs| && entries[i] == outputs[at[i]] && entries[i].regions > 0)
    && (forall i, j | 0 <= i < j < |at| :: at[i] > at[j])
    && (forall p | n <= p < |outputs| && outputs[p].regions > 0 :: p in at)
  }

  lemma FromTheTopNext(entries: seq<Output>, outputs: seq<Output>, at: seq<nat>, n: nat)
    requires 0 < n <= |outputs| && FromTheTop(entries, outputs, at, n)
    ensures outputs[n - 1].regions > 0 ==> FromTheTop(entries + [outputs[n - 1]], outputs, at + [n - 1], n - 1)
    ensures outputs[n - 1].regions == 0 ==> FromTheTop(entries, outputs, at, n - 1)
  {
    forall p | n <= p < |outputs| && outputs[p].regions > 0 ensures p in at + [n - 1] { assert p in at; }
  }

  /** buildHitMap scans backwards: the entries are the reverse of the hit-bearing outputs, topmost first. */
  method BuildHitMap(outputs: seq<Output>) returns (entries: seq<Output>, ghost at: seq<nat>)
    ensures entries == Reverse(HitBearing(outputs, |outputs|))
    ensures FromTheTop(entries, outputs, at, 0)
  {
    entries, at := [], [];
    var i := |outputs|;
    ghost var all := Reverse(HitBearing(outputs, |outputs|));
    while i > 0
      invariant 0 <= i <= |outputs| && FromTheTop(entries, outputs, at, i)
      invariant all == entries + Reverse(HitBearing(outputs, i))
    {
      FromTheTopNext(entries, outputs, at, i);
      i := i - 1;
      if Bears(outputs[i]) {
        ghost var front := HitBearing(outputs, i);
        assert Reverse(front + [outputs[i]]) == [outputs[i]] + Reverse(front);
        entries, at := entries + [outputs[i]], at + [i];
      } else {
        assert HitBearing(outputs, i) + [] == HitBearing(outputs, i);
      }
    }
    assert entries + [] == entries;
  }

  // ----- building the node list -----

  method AllocateNodes(ts: seq<Facet>) returns (kids: seq<ProjectionNode>)
    ensures |kids| == |ts| && Facets(kids) == ts && fresh(kids)
    ensures forall i, j | 0 <= i < j < |kids| :: kids[i] != kids[j]
  {
    kids := [];
    for i := 0 to |ts|
      invariant |kids| == i && fresh(kids)
      invariant forall j | 0 <= j < i :: kids[j].facet == ts[j]
      invariant forall j, k | 0 <= j < k < i :: kids[j] != kids[k]
    {
      var n := new ProjectionNode(ts[i]);
      kids := kids + [n];
    }
  }

  ghost predicate Apart(a: seq<ProjectionNode>, b: seq<ProjectionNode>) {
    forall x <- a :: x !in b
  }

  lemma AppendDistinct(a: seq<ProjectionNode>, b: seq<ProjectionNode>)
    requires AllDistinct(a) && AllDistinct(b) && Apart(a, b)
    ensures AllDistinct(a + b)
  {
    forall i, j | 0 <= i < j < |a + b| ensures (a + b)[i] != (a + b)[j] {
      if i < |a| <= j {
        assert (a + b)[i] in a && (a + b)[j] in b;
      }
    }
  }

  lemma ReverseDistinct(a: seq<ProjectionNode>)
    requires AllDistinct(a)
    ensures AllDistinct(Reverse(a)) && forall x :: x in Reverse(a) <==> x in a
  {
    forall x | x in a ensures x in Reverse(a) {
      var i :| 0 <= i < |a| && a[i] == x;
      assert Reverse(a)[|a| - 1 - i] == x;
    }
  }

  lemma PlacedStays(c: ProjectionNode, list: seq<ProjectionNode>, i: nat, stack: seq<ProjectionNode>, n: ProjectionNode, stack': seq<ProjectionNode>)
    requires i < |list| && Placed(c, list, i, stack + [n]) && forall x <- stack :: x in stack'
    ensures Placed(c, list + [n], i, stack')
  {
    assert (list + [n])[i + 1..] == list[i + 1..] + [n];
  }

  /** One iteration of the build loop: the popped node joins the list, gets its children, and they are pushed in reverse. */
  method Expand(list: seq<ProjectionNode>, stack: seq<ProjectionNode>, n: ProjectionNode) returns (stack': seq<ProjectionNode>)
    requires AllDistinct(stack) && Apart(list, stack) && n !in list && n !in stack && Growing(list, stack + [n])
    modifies n
    ensures AllDistinct(stack') && Apart(list + [n], stack') && Growing(list + [n], stack')
    ensures forall x <- stack' :: x in stack || fresh(x)
    ensures Waiting(Facets(stack')) == Forest(n.facet.children) + Waiting(Facets(stack))
  {
    var kids := AllocateNodes(n.facet.children);
    ReverseDistinct(kids);
    AppendDistinct(stack, Reverse(kids));
    stack' := stack + Reverse(kids);
    assert Facets(stack') == Facets(stack) + Reverse(n.facet.children);
    WaitingPush(Facets(stack), n.facet.children);
    n.children := kids;
    forall i, c | 0 <= i < |list| && c in list[i].children ensures Placed(c, list + [n], i, stack') {
      assert list[i] in list;
      PlacedStays(c, list, i, stack, n, stack');
    }
  }

  /** buildProjectionTree: the node list is the tree in pre-order, fully linked, with the aggregated flag of every node exact. */
  method BuildProjectionTree(root: Facet) returns (list: seq<ProjectionNode>)
    ensures Facets(list) == Preorder(root) && Linked(list)
    ensures forall i | 0 <= i < |list| :: list[i].subtreeHasLayer == HasLayer(list[i].facet)
  {
    list := BuildList(root);
    Aggregate(list);
  }

  /**
   * Build, aggregate, walk: the facets visited are in pre-order, and with no poisoned facet every layer is among them
   * although gated subtrees without a layer are pruned.
   */
  method ProjectTree(root: Facet) returns (visited: seq<Facet>, outputs: seq<Output>)
    ensures visited == Walk(root) && outputs == Outputs(visited) && Subsequence(visited, Preorder(root))
    ensures NoPoison(root) ==> forall n <- Preorder(root) :: n.data.layer ==> n in visited
    ensures forall n :: n in visited <==> Reachable(root, n)
    ensures |outputs| == |visited| && forall i | 0 <= i < |visited| :: outputs[i] == Output(visited[i].id, Visible(visited[i].data), if Visible(visited[i].data) then visited[i].data.regions else 0)
  {
    var list := BuildProjectionTree(root);
    BuiltIsWalkable(list);
    assert list[0].facet == root;
    visited, outputs := WalkNode(list[0], list);
    WalkInPreorder(root);
    forall n ensures n in visited <==> Reachable(root, n) { WalkedIffReachable(root, n); }
    if NoPoison(root) {
      forall n | n in Preorder(root) && n.data.layer ensures n in visited {
        EveryLayerReached(root, n);
      }
    }
  }

  /** The state of the build loop: what was listed and what waits together make up the pre-order of the tree. */
  ghost predicate Building(root: Facet, list: seq<ProjectionNode>, stack: seq<ProjectionNode>)
    reads list
  {
    && AllDistinct(list) && AllDistinct(stack) && Apart(list, stack) && Growing(list, stack)
    && Facets(list) + Waiting(Facets(stack)) == Preorder(root)
  }

  method BuildStep(root: Facet, list: seq<ProjectionNode>, stack: seq<ProjectionNode>) returns (list': seq<ProjectionNode>, stack': seq<ProjectionNode>)
    requires stack != [] && Building(root, list, stack)
    modifies stack
    ensures Building(root, list', stack')
    ensures |Waiting(Facets(stack'))| < |Waiting(Facets(stack))|
    ensures forall x <- list' :: x in list || x in stack
    ensures forall x <- stack' :: x in stack || fresh(x)
  {
    var n, rest := stack[|stack| - 1], stack[..|stack| - 1];
    assert stack == rest + [n] && n in stack;
    WaitingPop(rest, n);
    AppendDistinct(list, [n]);
    stack' := Expand(list, rest, n);
    list' := list + [n];
    assert Facets(list') == Facets(list) + [n.facet];
    ghost var more := Waiting(Facets(stack'));
    assert Facets(list) + ([n.facet] + more) == (Facets(list) + [n.facet]) + more;
  }

  method BuildList(root: Facet) returns (list: seq<ProjectionNode>)
    ensures Facets(list) == Preorder(root) && Linked(list) && fresh(list)
  {
    var node := new ProjectionNode(root);
    list := [];
    var stack := [node];
    WaitingPop([], node);
    assert [] + [node] == [node] && Waiting<Look>([]) == [] && Forest(root.children) + [] == Forest(root.children);
    while stack != []
      invariant Building(root, list, stack)
      invariant forall i | 0 <= i < |list| :: fresh(list[i])
      invariant forall i | 0 <= i < |stack| :: fresh(stack[i])
      decreases |Waiting(Facets(stack))|
    {
      ghost var list0, stack0 := list, stack;
      list, stack := BuildStep(root, list, stack);
      forall i | 0 <= i < |list| ensures fresh(list[i]) {
        assert list[i] in list0 || list[i] in stack0;
      }
      forall i | 0 <= i < |stack| ensures fresh(stack[i]) {
        assert stack[i] in stack;
      }
    }
    assert Facets(list) + [] == Facets(list);
  }

  lemma WaitingPop(rest: seq<ProjectionNode>, n: ProjectionNode)
    ensures Waiting(Facets(rest + [n])) == [n.facet] + (Forest(n.facet.children) + Waiting(Facets(rest)))
  {
    assert Facets(rest + [n]) == Facets(rest) + [n.facet];
    assert (Facets(rest) + [n.facet])[..|rest|] == Facets(rest);
  }
}
