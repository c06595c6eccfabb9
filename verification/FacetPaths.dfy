/** The way from a facet up to its root (facet/focus.go climbs it to decide scopes), and what lies on it. */
module FacetPaths {
  import opened FacetTree

  ghost predicate UniqueIDs<D>(facets: seq<Tree<D>>) {
    && (forall i | 0 <= i < |facets| :: facets[i].id != 0)
    && (forall i, j | 0 <= i < j < |facets| :: facets[i].id != facets[j].id)
  }

  /** For every facet of the tree the identifiers from itself up to the root, then those above. */
  function Paths<D>(t: Tree<D>, above: seq<nat>): map<nat, seq<nat>>
    decreases t
  {
    PathsAll(t.children, [t.id] + above)[t.id := [t.id] + above]
  }

  function PathsAll<D>(ts: seq<Tree<D>>, above: seq<nat>): map<nat, seq<nat>>
    decreases ts
  {
    if ts == [] then map[] else PathsAll(ts[1..], above) + Paths(ts[0], above)
  }

  ghost predicate HasID<D>(facets: seq<Tree<D>>, id: nat) {
    exists n <- facets :: n.id == id
  }

  /** Some facet named `scope` has a facet named `id` in its subtree. */
  ghost predicate Contains<D>(facets: seq<Tree<D>>, scope: nat, id: nat) {
    exists s <- facets :: s.id == scope && HasID(Preorder(s), id)
  }

  lemma HasSplit<D>(a: seq<Tree<D>>, b: seq<Tree<D>>, id: nat)
    ensures HasID(a + b, id) <==> HasID(a, id) || HasID(b, id)
  {
    forall n | n in a && n.id == id ensures HasID(a + b, id) { assert n in a + b; }
    forall n | n in b && n.id == id ensures HasID(a + b, id) { assert n in a + b; }
  }

  lemma ContainsSplit<D>(a: seq<Tree<D>>, b: seq<Tree<D>>, scope: nat, id: nat)
    ensures Contains(a + b, scope, id) <==> Contains(a, scope, id) || Contains(b, scope, id)
  {
    forall s | s in a && s.id == scope && HasID(Preorder(s), id) ensures Contains(a + b, scope, id) { assert s in a + b; }
    forall s | s in b && s.id == scope && HasID(Preorder(s), id) ensures Contains(a + b, scope, id) { assert s in a + b; }
  }

  lemma {:induction false} PathsKeys<D>(t: Tree<D>, above: seq<nat>, id: nat)
    ensures id in Paths(t, above) <==> HasID(Preorder(t), id)
    decreases t
  {
    PathsAllKeys(t.children, [t.id] + above, id);
    HasSplit([t], Forest(t.children), id);
    assert HasID([t], id) <==> id == t.id by { assert [t][0] in [t]; }
  }

  lemma {:induction false} PathsAllKeys<D>(ts: seq<Tree<D>>, above: seq<nat>, id: nat)
    ensures id in PathsAll(ts, above) <==> HasID(Forest(ts), id)
    decreases ts
  {
    if ts != [] {
      PathsKeys(ts[0], above, id);
      PathsAllKeys(ts[1..], above, id);
      HasSplit(Preorder(ts[0]), Forest(ts[1..]), id);
    }
  }

  /** The subtree of a facet of a tree is part of the tree's pre-order. */
  lemma {:induction false} SubtreeInside<D>(t: Tree<D>, s: Tree<D>, id: nat)
    requires s in Preorder(t) && HasID(Preorder(s), id)
    ensures HasID(Preorder(t), id)
    decreases t
  {
    if s != t {
      assert s in Forest(t.children);
      ForestInside(t.children, s, id);
      HasSplit([t], Forest(t.children), id);
    }
  }

  lemma {:induction false} ForestInside<D>(ts: seq<Tree<D>>, s: Tree<D>, id: nat)
    requires s in Forest(ts) && HasID(Preorder(s), id)
    ensures HasID(Forest(ts), id)
    decreases ts
  {
    HasSplit(Preorder(ts[0]), Forest(ts[1..]), id);
    if s in Preorder(ts[0]) { SubtreeInside(ts[0], s, id); } else { ForestInside(ts[1..], s, id); }
  }

  /** A facet outside a list of subtrees is in the scope of none of their facets. */
  lemma NotContained<D>(ts: seq<Tree<D>>, scope: nat, id: nat)
    requires !HasID(Forest(ts), id)
    ensures !Contains(Forest(ts), scope, id)
  {
    forall s | s in Forest(ts) ensures !HasID(Preorder(s), id) {
      if HasID(Preorder(s), id) { ForestInside(ts, s, id); }
    }
  }

  lemma NotContainedInTree<D>(t: Tree<D>, scope: nat, id: nat)
    requires !HasID(Preorder(t), id)
    ensures !Contains(Preorder(t), scope, id)
  {
    forall s | s in Preorder(t) ensures !HasID(Preorder(s), id) {
      if HasID(Preorder(s), id) { SubtreeInside(t, s, id); }
    }
  }

  lemma UniqueApart<D>(a: seq<Tree<D>>, b: seq<Tree<D>>, id: nat)
    requires UniqueIDs(a + b) && HasID(a, id)
    ensures !HasID(b, id) && UniqueIDs(a) && UniqueIDs(b)
  {
    UniqueParts(a, b);
    var n :| n in a && n.id == id;
    var i :| 0 <= i < |a| && a[i] == n;
    forall m | m in b ensures m.id != id {
      var j :| 0 <= j < |b| && b[j] == m;
      assert (a + b)[i] == n && (a + b)[|a| + j] == m;
    }
  }

  lemma UniqueParts<D>(a: seq<Tree<D>>, b: seq<Tree<D>>)
    requires UniqueIDs(a + b)
    ensures UniqueIDs(a) && UniqueIDs(b)
  {
    forall i | 0 <= i < |a| ensures a[i].id != 0 { assert (a + b)[i] == a[i]; }
    forall i | 0 <= i < |b| ensures b[i].id != 0 { assert (a + b)[|a| + i] == b[i]; }
    forall i, j | 0 <= i < j < |a| ensures a[i].id != a[j].id { assert (a + b)[i] == a[i] && (a + b)[j] == a[j]; }
    forall i, j | 0 <= i < j < |b| ensures b[i].id != b[j].id { assert (a + b)[|a| + i] == b[i] && (a + b)[|a| + j] == b[j]; }
  }

  /** The path of a facet names, besides what lies above the tree, exactly the facets whose subtree holds it. */
  lemma {:induction false} PathsMean<D>(t: Tree<D>, above: seq<nat>, id: nat, scope: nat)
    requires UniqueIDs(Preorder(t)) && HasID(Preorder(t), id)
    ensures id in Paths(t, above)
    ensures scope in Paths(t, above)[id] <==> scope in above || Contains(Preorder(t), scope, id)
    decreases t
  {
    PathsKeys(t, above, id);
    ContainsSplit([t], Forest(t.children), scope, id);
    assert Contains([t], scope, id) <==> scope == t.id by { assert [t][0] in [t]; }
    HasSplit([t], Forest(t.children), id);
    if id == t.id {
      assert [t][0] in [t];
      UniqueApart([t], Forest(t.children), id);
      NotContained(t.children, scope, id);
    } else {
      assert HasID(Forest(t.children), id);
      UniqueParts([t], Forest(t.children));
      PathsAllMean(t.children, [t.id] + above, id, scope);
    }
  }

  lemma {:induction false} PathsAllMean<D>(ts: seq<Tree<D>>, above: seq<nat>, id: nat, scope: nat)
    requires UniqueIDs(Forest(ts)) && HasID(Forest(ts), id)
    ensures id in PathsAll(ts, above)
    ensures scope in PathsAll(ts, above)[id] <==> scope in above || Contains(Forest(ts), scope, id)
    decreases ts
  {
    var first, rest := Preorder(ts[0]), Forest(ts[1..]);
    PathsAllKeys(ts, above, id);
    HasSplit(first, rest, id);
    ContainsSplit(first, rest, scope, id);
    UniqueParts(first, rest);
    PathsKeys(ts[0], above, id);
    if HasID(first, id) {
      UniqueApart(first, rest, id);
      PathsMean(ts[0], above, id, scope);
      NotContained(ts[1..], scope, id);
    } else {
      PathsAllMean(ts[1..], above, id, scope);
      NotContainedInTree(ts[0], scope, id);
    }
  }
}
