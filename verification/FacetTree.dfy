/**
 * The facet tree as the walks of the engine see it (facet/facet.go): identified nodes with some data and ordered children,
 * its pre-order, and the explicit stack with which the code visits it.
 */
module FacetTree {

  datatype Tree<D> = Node(id: nat, data: D, children: seq<Tree<D>>)

  function Preorder<D>(t: Tree<D>): seq<Tree<D>>
    decreases t
  {
    [t] + Forest(t.children)
  }

  function Forest<D>(ts: seq<Tree<D>>): seq<Tree<D>>
    decreases ts
  {
    if ts == [] then [] else Preorder(ts[0]) + Forest(ts[1..])
  }

  lemma {:induction false} ForestHas<D>(ts: seq<Tree<D>>, n: Tree<D>)
    ensures n in Forest(ts) <==> exists k | 0 <= k < |ts| :: n in Preorder(ts[k])
  {
    if ts != [] {
      ForestHas(ts[1..], n);
      if n in Forest(ts[1..]) {
        var k :| 0 <= k < |ts[1..]| && n in Preorder(ts[1..][k]);
        assert ts[k + 1] == ts[1..][k];
      }
      if exists k | 0 <= k < |ts| :: n in Preorder(ts[k]) {
        var k :| 0 <= k < |ts| && n in Preorder(ts[k]);
        assert k > 0 ==> ts[1..][k - 1] == ts[k];
      }
    }
  }

  // ----- explicit stacks -----

  /** What remains to be visited, top of the stack (its last element) first. */
  function Waiting<D>(stack: seq<Tree<D>>): seq<Tree<D>> {
    if stack == [] then [] else Preorder(stack[|stack| - 1]) + Waiting(stack[..|stack| - 1])
  }

  function Reverse<T>(s: seq<T>): (r: seq<T>)
    ensures |r| == |s| && forall i | 0 <= i < |s| :: r[i] == s[|s| - 1 - i]
  {
    seq(|s|, i requires 0 <= i < |s| => s[|s| - 1 - i])
  }

  lemma {:induction false} WaitingPush<D>(stack: seq<Tree<D>>, ts: seq<Tree<D>>)
    ensures Waiting(stack + Reverse(ts)) == Forest(ts) + Waiting(stack)
  {
    if ts == [] {
      assert stack + Reverse(ts) == stack;
    } else {
      var t, rest := ts[0], ts[1..];
      assert stack + Reverse(ts) == (stack + Reverse(rest)) + [t];
      assert ((stack + Reverse(rest)) + [t])[..|stack + Reverse(rest)|] == stack + Reverse(rest);
      WaitingPush(stack, rest);
      assert Preorder(t) + (Forest(rest) + Waiting(stack)) == (Preorder(t) + Forest(rest)) + Waiting(stack);
    }
  }
}
