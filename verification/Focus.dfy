/**
 * Keyboard focus and focus traps (facet/focus.go). Facets are identified by nonzero numbers. What the facets say about
 * themselves may change only when the tab order is rebuilt, and callbacks do not re-enter the manager.
 */
module Focus {
  import opened Machine
  import opened Ordering
  import opened FacetTree
  import opened FacetPaths

  datatype Restore = Previous | FirstFocusable | Nowhere
  datatype Trap = Trap(scope: nat, restore: Restore, restoreID: nat)
  datatype TrapState = TrapState(scope: nat, restore: Restore)

  /** A facet's focus role, if it has one. */
  datatype Role = NoRole | Role(tabIndex: int, focusable: bool)

  type Facet = Tree<Role>

  /** What the facets say now, attached or not: which are focusable, and for each the way up to its root. */
  datatype Facts = Facts(focusable: set<nat>, path: map<nat, seq<nat>>)

  predicate InScope(w: Facts, id: nat, scope: nat) {
    scope == 0 || (id in w.path && scope in w.path[id])
  }

  /** isWithinScope: climb from the facet to its root. */
  method IsWithinScope(w: Facts, id: nat, scope: nat) returns (within: bool)
    ensures within == InScope(w, id, scope)
    ensures within <==> scope == 0 || (id in w.path && exists i | 0 <= i < |w.path[id]| :: w.path[id][i] == scope)
  {
    if scope == 0 { return true; }
    if id !in w.path { return false; }
    for i := 0 to |w.path[id]|
      invariant forall j | 0 <= j < i :: w.path[id][j] != scope
    {
      if w.path[id][i] == scope { return true; }
    }
    within := false;
  }

  predicate Focusable(f: Facet) {
    f.data.Role? && f.data.focusable
  }

  /** The facts agree with an attached tree. */
  ghost predicate Describes(w: Facts, root: Facet) {
    forall f <- Preorder(root) :: (f.id in w.focusable <==> Focusable(f)) && f.id in w.path && f.id in Paths(root, []) && w.path[f.id] == Paths(root, [])[f.id]
  }

  /** A facet of the tree is inside a scope exactly when the scope's facet has it in its subtree. */
  lemma InScopeIsSubtree(w: Facts, root: Facet, id: nat, scope: nat)
    requires Describes(w, root) && UniqueIDs(Preorder(root)) && HasID(Preorder(root), id) && scope != 0
    ensures InScope(w, id, scope) <==> Contains(Preorder(root), scope, id)
  {
    var f :| f in Preorder(root) && f.id == id;
    PathsMean(root, [], id, scope);
  }

  predicate Allowed(w: Facts, traps: seq<Trap>, id: nat) {
    forall i | 0 <= i < |traps| :: InScope(w, id, traps[i].scope)
  }

  predicate CanFocus(w: Facts, traps: seq<Trap>, id: nat) {
    id in w.focusable && Allowed(w, traps, id)
  }

  // ----- where focus goes when a trap is pushed or popped -----

  /** The first facet of the tab order from position i that can take focus inside the traps; 0 when there is none. */
  function FirstIn(w: Facts, traps: seq<Trap>, order: seq<nat>, i: nat): (id: nat)
    requires i <= |order|
    ensures id != 0 ==> id in order && CanFocus(w, traps, id)
    ensures id == 0 && 0 !in order ==> forall j | i <= j < |order| :: !CanFocus(w, traps, order[j])
    ensures id != 0 ==> exists k :: i <= k < |order| && order[k] == id && forall j | i <= j < k :: !CanFocus(w, traps, order[j])
    decreases |order| - i
  {
    if i == |order| then 0 else if CanFocus(w, traps, order[i]) then order[i] else FirstIn(w, traps, order, i + 1)
  }

  function AfterPush(w: Facts, traps: seq<Trap>, order: seq<nat>, focused: nat): nat {
    if focused != 0 && CanFocus(w, traps, focused) then focused else FirstIn(w, traps, order, 0)
  }

  function AfterPop(w: Facts, traps: seq<Trap>, order: seq<nat>, known: set<nat>, popped: Trap): nat {
    var first, saved := FirstIn(w, traps, order, 0), popped.restoreID;
    if popped.restore == Nowhere then (if traps == [] then 0 else first)
    else if popped.restore == Restore.FirstFocusable && first != 0 then first
    else if saved != 0 && saved in known && CanFocus(w, traps, saved) then saved
    else first
  }

  // ----- the requested trap stack -----

  /** The nonzero scopes of a request, each at its first occurrence. */
  function Normalized(request: seq<TrapState>, n: nat): seq<TrapState>
    requires n <= |request|
  {
    if n == 0 then []
    else
      var before := Normalized(request, n - 1);
      var t := request[n - 1];
      if t.scope == 0 || exists i | 0 <= i < n - 1 :: request[i].scope == t.scope then before else before + [t]
  }

  function Request(traps: seq<Trap>): (r: seq<TrapState>)
    ensures |r| == |traps| && forall i | 0 <= i < |traps| :: r[i] == TrapState(traps[i].scope, traps[i].restore)
  {
    seq(|traps|, i requires 0 <= i < |traps| => TrapState(traps[i].scope, traps[i].restore))
  }

  // ----- tab order as a cycle -----

  function Filtered(w: Facts, traps: seq<Trap>, order: seq<nat>, n: nat): seq<nat>
    requires n <= |order|
  {
    if n == 0 then [] else Filtered(w, traps, order, n - 1) + if Allowed(w, traps, order[n - 1]) then [order[n - 1]] else []
  }

  function IndexOf(order: seq<nat>, id: nat, i: nat): (k: nat)
    requires i <= |order|
    ensures i <= k <= |order| && (k < |order| ==> order[k] == id) && forall j | i <= j < k :: order[j] != id
    decreases |order| - i
  {
    if i == |order| || order[i] == id then i else IndexOf(order, id, i + 1)
  }

  predicate Distinct(order: seq<nat>) {
    forall i, j | 0 <= i < j < |order| :: order[i] != order[j]
  }

  function Forward(order: seq<nat>, id: nat): nat
    requires order != []
  {
    var k := IndexOf(order, id, 0);
    if k == |order| then order[0] else if k + 1 == |order| then order[0] else order[k + 1]
  }

  function Backward(order: seq<nat>, id: nat): nat
    requires order != []
  {
    var k := IndexOf(order, id, 0);
    if k == |order| || k == 0 then order[|order| - 1] else order[k - 1]
  }

  lemma IndexUnique(order: seq<nat>, k: nat)
    requires Distinct(order) && k < |order|
    ensures IndexOf(order, order[k], 0) == k
  {
    var j := IndexOf(order, order[k], 0);
  }

  /** On a facet of the order, going forward and then back (or back and then forward) returns to it. */
  lemma ForwardBackward(order: seq<nat>, id: nat)
    requires Distinct(order) && id in order
    ensures Backward(order, Forward(order, id)) == id && Forward(order, Backward(order, id)) == id
    ensures Forward(order, id) in order && Backward(order, id) in order
  {
    var k := IndexOf(order, id, 0);
    IndexUnique(order, k);
    IndexUnique(order, 0);
    IndexUnique(order, |order| - 1);
    if k + 1 < |order| { IndexUnique(order, k + 1); }
    if k > 0 { IndexUnique(order, k - 1); }
  }

  function ForwardN(order: seq<nat>, id: nat, n: nat): nat
    requires order != []
  {
    if n == 0 then id else Forward(order, ForwardN(order, id, n - 1))
  }

  lemma {:induction false} ForwardSteps(order: seq<nat>, k: nat, n: nat)
    requires Distinct(order) && k < |order| && n <= |order|
    ensures ForwardN(order, order[k], n) == order[if k + n < |order| then k + n else k + n - |order|]
  {
    if n > 0 {
      ForwardSteps(order, k, n - 1);
      IndexUnique(order, if k + n - 1 < |order| then k + n - 1 else k + n - 1 - |order|);
    }
  }

  /** As many forward steps as there are facets in the order come back to the start. */
  lemma FullCycle(order: seq<nat>, id: nat)
    requires Distinct(order) && id in order
    ensures ForwardN(order, id, |order|) == id
  {
    var k := IndexOf(order, id, 0);
    ForwardSteps(order, k, |order|);
  }

  lemma {:induction false} FilteredFacts(w: Facts, traps: seq<Trap>, order: seq<nat>, n: nat)
    requires n <= |order|
    ensures forall id :: id in Filtered(w, traps, order, n) <==> id in order[..n] && Allowed(w, traps, id)
    ensures Distinct(order) ==> Distinct(Filtered(w, traps, order, n))
  {
    if n > 0 {
      FilteredFacts(w, traps, order, n - 1);
      assert order[..n] == order[..n - 1] + [order[n - 1]];
      if Distinct(order) { assert order[n - 1] !in order[..n - 1]; }
    }
  }

  /** The index arithmetic of TabNext and TabPrev on a nonempty order. */
  method NextOf(order: seq<nat>, focused: nat) returns (id: nat)
    requires order != [] && 0 !in order
    ensures id == Forward(order, focused) && id in order
  {
    var k := IndexOf(order, focused, 0);
    if focused == 0 || k == |order| { return order[0]; }
    var next := (k + 1) % |order|;
    assert k + 1 < |order| ==> next == k + 1;
    assert k + 1 == |order| ==> next == 0;
    id := order[next];
  }

  method PreviousOf(order: seq<nat>, focused: nat) returns (id: nat)
    requires order != [] && 0 !in order
    ensures id == Backward(order, focused) && id in order
  {
    var k := IndexOf(order, focused, 0);
    if focused == 0 || k == |order| { return order[|order| - 1]; }
    RemainderOnce(k - 1 + |order|, |order|);
    var next := (k - 1 + |order|) % |order|;
    id := order[next];
  }

  lemma RemainderOnce(a: nat, n: nat)
    requires 0 < n && a < 2 * n
    ensures a % n == if a < n then a else a - n
  {}

  /** The first n traps of both stacks have the same scopes. */
  ghost predicate SameScopes(a: seq<Trap>, b: seq<Trap>, n: nat) {
    n <= |a| && n <= |b| && forall i | 0 <= i < n :: a[i].scope == b[i].scope
  }

  // ----- what may happen while a trap is open -----

  datatype Move = Push(trap: TrapState) | Pop | Next | Back | Go(target: nat)

  // ----- the manager -----

  class FocusManager {
    var facts: Facts
    var focused: nat
    var tabOrder: seq<nat>
    var known: set<nat>
    var traps: seq<Trap>

    /** Focus is empty or on a focusable facet inside every trap; the tab order lists known focusable facets once each. */
    ghost predicate Valid()
      reads this
    {
      && (focused == 0 || (focused in known && CanFocus(facts, traps, focused)))
      && Distinct(tabOrder)
      && (forall i | 0 <= i < |tabOrder| :: tabOrder[i] != 0 && tabOrder[i] in known && tabOrder[i] in facts.focusable)
    }

    ghost predicate OrderOk()
      reads this
    {
      Distinct(tabOrder) && forall i | 0 <= i < |tabOrder| :: tabOrder[i] != 0 && tabOrder[i] in known && tabOrder[i] in facts.focusable
    }

    constructor (facts: Facts)
      ensures Valid() && this.facts == facts && focused == 0 && traps == []
    {
      this.facts := facts;
      focused, tabOrder, known, traps := 0, [], {}, [];
    }

    method ClearFocus()
      modifies this`focused
      ensures focused == 0
    {
      focused := 0;
    }

    method SetFocus(target: nat) returns (ok: bool)
      requires OrderOk()
      modifies this`focused, this`known
      ensures OrderOk() && ok == (target == 0 || CanFocus(facts, traps, target))
      ensures ok <==> target == 0 || (target in facts.focusable && forall i | 0 <= i < |traps| :: InScope(facts, target, traps[i].scope))
      ensures focused == if ok then target else old(focused)
      ensures known == if ok && target != 0 then old(known) + {target} else old(known)
    {
      if target == 0 {
        ClearFocus();
        return true;
      }
      if !CanFocus(facts, traps, target) { return false; }
      known := known + {target};
      focused := target;
      ok := true;
    }

    /** firstFocusableInActiveTraps: scan the tab order; 0 when there is none. */
    method FirstFocusable() returns (id: nat)
      requires OrderOk()
      ensures id == FirstIn(facts, traps, tabOrder, 0)
      ensures id == 0 <==> forall i | 0 <= i < |tabOrder| :: !CanFocus(facts, traps, tabOrder[i])
    {
      for i := 0 to |tabOrder|
        invariant FirstIn(facts, traps, tabOrder, 0) == FirstIn(facts, traps, tabOrder, i)
        invariant forall j | 0 <= j < i :: !CanFocus(facts, traps, tabOrder[j])
      {
        if tabOrder[i] in known && CanFocus(facts, traps, tabOrder[i]) { return tabOrder[i]; }
      }
      id := 0;
    }

    /** Move focus to the first focusable facet inside the traps, or clear it. */
    method FocusFirst()
      requires OrderOk()
      modifies this`focused, this`known
      ensures Valid() && focused == FirstIn(facts, traps, tabOrder, 0) && known == old(known)
    {
      var id := FirstFocusable();
      if id != 0 {
        var _ := SetFocus(id);
      } else {
        ClearFocus();
      }
    }

    method PushTrap(t: TrapState)
      requires Valid() && t.scope != 0
      modifies this`focused, this`known, this`traps
      ensures Valid()
      ensures traps == old(traps) + [Trap(t.scope, t.restore, old(focused))]
      ensures focused == AfterPush(facts, traps, tabOrder, old(focused)) && known == old(known)
      ensures old(focused) != 0 && InScope(facts, old(focused), t.scope) ==> focused == old(focused)
      ensures !(old(focused) != 0 && InScope(facts, old(focused), t.scope)) ==> focused == FirstIn(facts, traps, tabOrder, 0)
    {
      traps := traps + [Trap(t.scope, t.restore, focused)];
      assert traps[|traps| - 1].scope == t.scope;
      if focused == 0 || !CanFocus(facts, traps, focused) {
        FocusFirst();
      }
    }

    /** A remembered facet can take focus again. */
    predicate Restorable(id: nat)
      reads this
    {
      id != 0 && id in known && CanFocus(facts, traps, id)
    }

    method PopTrap()
      requires OrderOk() && traps != []
      modifies this`focused, this`known, this`traps
      ensures Valid() && traps == old(traps[..|traps| - 1]) && known == old(known)
      ensures focused == AfterPop(facts, traps, tabOrder, known, old(traps[|traps| - 1]))
      ensures old(traps[|traps| - 1]).restore == Nowhere && traps == [] ==> focused == 0
      ensures old(traps[|traps| - 1]).restore == Nowhere && traps != [] ==> focused == FirstIn(facts, traps, tabOrder, 0)
      ensures old(traps[|traps| - 1]).restore == Restore.FirstFocusable && FirstIn(facts, traps, tabOrder, 0) != 0 ==> focused == FirstIn(facts, traps, tabOrder, 0)
      ensures old(traps[|traps| - 1]).restore == Previous && Restorable(old(traps[|traps| - 1]).restoreID) ==> focused == old(traps[|traps| - 1]).restoreID
      ensures old(traps[|traps| - 1]).restore == Previous && !Restorable(old(traps[|traps| - 1]).restoreID) ==> focused == FirstIn(facts, traps, tabOrder, 0)
      ensures old(traps[|traps| - 1]).restore == Restore.FirstFocusable && FirstIn(facts, traps, tabOrder, 0) == 0 ==> focused == if Restorable(old(traps[|traps| - 1]).restoreID) then old(traps[|traps| - 1]).restoreID else 0
    {
      var frame := traps[|traps| - 1];
      traps := traps[..|traps| - 1];
      if frame.restore == Nowhere {
        if |traps| > 0 { FocusFirst(); } else { ClearFocus(); }
        return;
      }
      if frame.restore == Restore.FirstFocusable {
        var id := FirstFocusable();
        if id != 0 {
          var _ := SetFocus(id);
          return;
        }
      }
      if frame.restoreID != 0 && frame.restoreID in known && CanFocus(facts, traps, frame.restoreID) {
        var _ := SetFocus(frame.restoreID);
        return;
      }
      FocusFirst();
    }

    method Normalize(request: seq<TrapState>) returns (wanted: seq<TrapState>)
      ensures wanted == Normalized(request, |request|)
    {
      wanted := [];
      var seen: set<nat> := {};
      for n := 0 to |request|
        invariant wanted == Normalized(request, n)
        invariant forall s: nat :: s in seen <==> s != 0 && exists i | 0 <= i < n :: request[i].scope == s
      {
        var t := request[n];
        if t.scope != 0 && t.scope !in seen {
          seen := seen + {t.scope};
          wanted := wanted + [t];
        }
      }
    }

    /** The traps already as wanted at the bottom of the stack take over the wanted restore mode and keep what they remember. */
    method KeepCommon(wanted: seq<TrapState>) returns (common: nat)
      requires Valid()
      modifies this`traps
      ensures Valid() && common <= |traps| && common <= |wanted| && |traps| == |old(traps)|
      ensures forall i | 0 <= i < common :: TrapState(traps[i].scope, traps[i].restore) == wanted[i] && traps[i].restoreID == old(traps)[i].restoreID
      ensures forall i | 0 <= i < |traps| :: traps[i].scope == old(traps)[i].scope
      ensures common < |traps| && common < |wanted| ==> traps[common].scope != wanted[common].scope
    {
      common := 0;
      while common < |traps| && common < |wanted| && traps[common].scope == wanted[common].scope
        invariant 0 <= common <= |traps| && common <= |wanted| && Valid() && |traps| == |old(traps)|
        invariant forall i | 0 <= i < common :: TrapState(traps[i].scope, traps[i].restore) == wanted[i] && traps[i].restoreID == old(traps)[i].restoreID
        invariant forall i | 0 <= i < |traps| :: traps[i].scope == old(traps)[i].scope
        invariant forall i | common <= i < |traps| :: traps[i] == old(traps)[i]
        decreases |wanted| - common
      {
        ghost var before := traps;
        traps := traps[common := traps[common].(restore := wanted[common].restore)];
        assert forall i | 0 <= i < |traps| :: traps[i].scope == before[i].scope;
        common := common + 1;
      }
    }

    /** Pop down to n traps; nothing happens when there are no more than that. */
    method PopTo(n: nat)
      requires Valid() && n <= |traps|
      modifies this`focused, this`known, this`traps
      ensures Valid() && traps == old(traps[..n])
      ensures n == |old(traps)| ==> focused == old(focused)
    {
      while |traps| > n
        invariant n <= |traps| <= |old(traps)| && Valid() && traps == old(traps)[..|traps|]
        invariant |traps| == |old(traps)| ==> focused == old(focused)
        decreases |traps|
      {
        PopTrap();
      }
    }

    /** Push the wanted traps from the n-th on; nothing happens when there are none. */
    method PushFrom(wanted: seq<TrapState>, n: nat)
      requires Valid() && n == |traps| <= |wanted| && forall i | 0 <= i < |wanted| :: wanted[i].scope != 0
      modifies this`focused, this`known, this`traps
      ensures Valid() && |traps| == |wanted| && traps[..n] == old(traps)
      ensures forall i | n <= i < |wanted| :: TrapState(traps[i].scope, traps[i].restore) == wanted[i]
      ensures n == |wanted| ==> focused == old(focused)
    {
      for i := n to |wanted|
        invariant |traps| == i && Valid() && traps[..n] == old(traps)
        invariant forall j | n <= j < i :: TrapState(traps[j].scope, traps[j].restore) == wanted[j]
        invariant i == n ==> focused == old(focused)
      {
        PushTrap(wanted[i]);
      }
    }

    /**
     * SyncFocusTraps keeps the common prefix of the stack, pops the rest and pushes what is missing. Afterwards
     * the stack is exactly the nonzero de-duplicated request and focus is empty or inside every trap. Traps below
     * the first difference still remember the focus they were opened over, and a request for the scopes already on
     * the stack moves nothing.
     */
    method SyncFocusTraps(request: seq<TrapState>)
      requires Valid()
      modifies this`focused, this`known, this`traps
      ensures Valid() && Request(traps) == Normalized(request, |request|)
      ensures AsRequested(traps, request)
      ensures forall n: nat | SameScopes(old(traps), traps, n) :: forall i | 0 <= i < n :: traps[i].restoreID == old(traps)[i].restoreID
      ensures |traps| == |old(traps)| && SameScopes(old(traps), traps, |traps|) ==> focused == old(focused)
    {
      var wanted := Normalize(request);
      NormalizedNonzero(request, |request|);
      var common := KeepCommon(wanted);
      PopTo(common);
      PushFrom(wanted, common);
      assert forall i | 0 <= i < common :: traps[i] == traps[..common][i];
      assert Request(traps) == wanted;
      NormalizedMeaning(request, traps);
    }

    /**
     * RebuildTabOrder after the facets changed: the tab order becomes the tabbable facets of the tree sorted by
     * (tab index, pre-order position). Focus survives exactly when its facet is still in the tree, still focusable
     * and still inside every trap.
     */
    method RebuildTabOrder(root: Option<Facet>, world: Facts) returns (sorted: seq<Entry>)
      requires root.Some? ==> UniqueIDs(Preorder(root.value)) && Describes(world, root.value)
      modifies this`facts, this`focused, this`known, this`tabOrder
      ensures Valid() && facts == world
      ensures root.None? ==> tabOrder == [] && known == {} && focused == 0
      ensures root.Some? ==> known == (set f | f in Preorder(root.value) :: f.id)
      ensures root.Some? ==> IsSortOf(sorted, Entries(Preorder(root.value), |Preorder(root.value)|), EntryKey())
      ensures root.Some? ==> |tabOrder| == |sorted| && (forall i | 0 <= i < |tabOrder| :: tabOrder[i] == sorted[i].id)
      ensures root.Some? ==> ListsTabbable(Preorder(root.value), sorted)
      ensures focused == if old(focused) in known && CanFocus(world, traps, old(focused)) then old(focused) else 0
    {
      sorted, tabOrder, known, facts := [], [], {}, world;
      if root.None? {
        focused := 0;
        return;
      }
      var order;
      sorted, order := SortedTabOrder(root.value);
      TabOrderOk(world, root.value, sorted);
      SortedMeaning(Preorder(root.value), sorted);
      known := set f | f in Preorder(root.value) :: f.id;
      tabOrder := order;
      if focused != 0 {
        if focused in known {
          if !CanFocus(facts, traps, focused) { ClearFocus(); }
        } else {
          focused := 0;
        }
      }
    }

    method FilteredTabOrder() returns (order: seq<nat>)
      requires OrderOk()
      ensures order == Filtered(facts, traps, tabOrder, |tabOrder|)
    {
      order := [];
      for i := 0 to |tabOrder|
        invariant order == Filtered(facts, traps, tabOrder, i)
      {
        if tabOrder[i] != 0 && tabOrder[i] in known && Allowed(facts, traps, tabOrder[i]) { order := order + [tabOrder[i]]; }
      }
    }

    /** Focus one entry of the filtered order; it is focusable there, so the move succeeds. */
    method FocusEntry(id: nat)
      requires OrderOk() && id in Filtered(facts, traps, tabOrder, |tabOrder|)
      modifies this`focused, this`known
      ensures Valid() && focused == id && old(known) <= known
    {
      FilteredFacts(facts, traps, tabOrder, |tabOrder|);
      var i :| 0 <= i < |tabOrder| && tabOrder[i] == id;
      if id in known {
        var _ := SetFocus(id);
      }
    }

    method TabNext()
      requires Valid()
      modifies this`focused, this`known
      ensures Valid() && old(known) <= known
      ensures
        var order := Filtered(facts, traps, tabOrder, |tabOrder|);
        focused == if order == [] then old(focused) else Forward(order, old(focused))
    {
      var order := FilteredTabOrder();
      if |order| == 0 { return; }
      ZeroNotListed();
      var id := NextOf(order, focused);
      FocusEntry(id);
    }

    method TabPrev()
      requires Valid()
      modifies this`focused, this`known
      ensures Valid() && old(known) <= known
      ensures
        var order := Filtered(facts, traps, tabOrder, |tabOrder|);
        focused == if order == [] then old(focused) else Backward(order, old(focused))
    {
      var order := FilteredTabOrder();
      if |order| == 0 { return; }
      ZeroNotListed();
      var id := PreviousOf(order, focused);
      FocusEntry(id);
    }

    /** The stack from `base` up belongs to an open trap t that remembers the focus it was pushed over. */
    ghost predicate OpenOver(outer: seq<Trap>, t: Trap)
      reads this
    {
      |traps| > |outer| && traps[..|outer|] == outer && traps[|outer|] == t
    }

    /** Anything that happens while the trap is open: inner traps come and go and focus moves about. */
    method Act(m: Move, ghost outer: seq<Trap>, ghost t: Trap, base: nat)
      requires Valid() && OpenOver(outer, t) && base == |outer| && (m.Push? ==> m.trap.scope != 0)
      modifies this`focused, this`known, this`traps
      ensures Valid() && OpenOver(outer, t) && old(known) <= known
    {
      match m
      case Push(trap) => PushTrap(trap);
      case Pop => if |traps| > base + 1 { PopTrap(); }
      case Next => TabNext();
      case Back => TabPrev();
      case Go(target) => var _ := SetFocus(target);
    }

    /**
     * A trap that restores the previous focus is pushed, anything happens inside it, and everything down to it is
     * popped: the stack is as before and focus is back where it was. With no focus before, it goes to the first
     * focusable facet.
     */
    method OpenThenClose(trap: TrapState, moves: seq<Move>)
      requires Valid() && trap.scope != 0 && trap.restore == Previous
      requires forall i | 0 <= i < |moves| :: moves[i].Push? ==> moves[i].trap.scope != 0
      modifies this`focused, this`known, this`traps
      ensures Valid() && traps == old(traps)
      ensures focused == if old(focused) != 0 then old(focused) else FirstIn(facts, traps, tabOrder, 0)
    {
      var base := |traps|;
      ghost var outer, t := traps, Trap(trap.scope, Previous, focused);
      PushTrap(trap);
      for i := 0 to |moves|
        invariant Valid() && OpenOver(outer, t) && old(known) <= known
      {
        Act(moves[i], outer, t, base);
      }
      while |traps| > base + 1
        invariant Valid() && OpenOver(outer, t) && old(known) <= known
        decreases |traps|
      {
        PopTrap();
      }
      assert traps[..|traps| - 1] == outer;
      PopTrap();
    }

    lemma ZeroNotListed()
      requires OrderOk()
      ensures 0 !in Filtered(facts, traps, tabOrder, |tabOrder|)
    {
      FilteredFacts(facts, traps, tabOrder, |tabOrder|);
    }
  }

  /** The normalized request holds only nonzero scopes taken from the request, each once. */
  lemma {:induction false} NormalizedNonzero(request: seq<TrapState>, n: nat)
    requires n <= |request|
    ensures forall k | 0 <= k < |Normalized(request, n)| :: Normalized(request, n)[k].scope != 0 && Normalized(request, n)[k] in request[..n]
    ensures forall i, j | 0 <= i < j < |Normalized(request, n)| :: Normalized(request, n)[i].scope != Normalized(request, n)[j].scope
  {
    if n > 0 {
      NormalizedNonzero(request, n - 1);
      assert request[..n] == request[..n - 1] + [request[n - 1]];
      var before := Normalized(request, n - 1);
      forall k | 0 <= k < |before| ensures exists i | 0 <= i < n - 1 :: request[i].scope == before[k].scope {
        assert before[k] in request[..n - 1];
        var i :| 0 <= i < n - 1 && request[..n - 1][i] == before[k];
        assert request[i] == before[k];
      }
    }
  }

  /** i is the first request for its scope. */
  predicate FirstRequest(request: seq<TrapState>, i: nat)
    requires i < |request|
  {
    request[i].scope != 0 && forall j | 0 <= j < i :: request[j].scope != request[i].scope
  }

  /** Every nonzero scope appears in the normalized request as it was first requested. */
  lemma {:induction false} NormalizedComplete(request: seq<TrapState>, n: nat, i: nat)
    requires i < n <= |request| && FirstRequest(request, i)
    ensures request[i] in Normalized(request, n)
    decreases n
  {
    if i < n - 1 { NormalizedComplete(request, n - 1, i); }
  }

  /** ps lists the members of a set of positions in ascending order. */
  ghost predicate InOrder(positions: set<nat>, ps: seq<nat>) {
    && (forall i, j | 0 <= i < j < |ps| :: ps[i] < ps[j])
    && (forall p :: p in positions <==> p in ps)
  }

  lemma InOrderNext(positions: set<nat>, ps: seq<nat>, n: nat)
    requires InOrder(positions, ps) && forall p | p in positions :: p < n
    ensures InOrder(positions + {n}, ps + [n])
  {
    forall i | 0 <= i < |ps| ensures ps[i] < n { assert ps[i] in positions; }
    forall p ensures p in positions + {n} <==> p in ps + [n] {}
  }

  /** ps lists, in ascending order, exactly the positions below n that are first requests. */
  ghost predicate FirstPositions(request: seq<TrapState>, n: nat, ps: seq<nat>)
    requires n <= |request|
  {
    InOrder(FirstRequests(request, n), ps)
  }

  ghost function FirstRequests(request: seq<TrapState>, n: nat): set<nat>
    requires n <= |request|
  {
    set p: nat | p < n && FirstRequest(request, p)
  }

  ghost predicate StatesAt(states: seq<TrapState>, request: seq<TrapState>, ps: seq<nat>) {
    |states| == |ps| && forall i | 0 <= i < |ps| :: ps[i] < |request| && states[i] == request[ps[i]]
  }

  /** The stack holds the first request of every nonzero scope, in the order requested, with its restore mode. */
  ghost predicate AsRequested(traps: seq<Trap>, request: seq<TrapState>) {
    exists ps: seq<nat> :: FirstPositions(request, |request|, ps) && TrapsAt(traps, request, ps)
  }

  ghost predicate TrapsAt(traps: seq<Trap>, request: seq<TrapState>, ps: seq<nat>) {
    |traps| == |ps| && forall i | 0 <= i < |ps| :: ps[i] < |request| && traps[i].scope == request[ps[i]].scope && traps[i].restore == request[ps[i]].restore
  }

  lemma {:induction false} NormalizedAt(request: seq<TrapState>, n: nat) returns (ps: seq<nat>)
    requires n <= |request|
    ensures FirstPositions(request, n, ps) && StatesAt(Normalized(request, n), request, ps)
  {
    ps := [];
    if n > 0 {
      ps := NormalizedAt(request, n - 1);
      var before, now := FirstRequests(request, n - 1), FirstRequests(request, n);
      if FirstRequest(request, n - 1) {
        InOrderNext(before, ps, n - 1);
        assert now == before + {n - 1};
        ps := ps + [n - 1];
      } else {
        assert now == before;
      }
    }
  }

  lemma NormalizedMeaning(request: seq<TrapState>, traps: seq<Trap>)
    requires Request(traps) == Normalized(request, |request|)
    ensures AsRequested(traps, request)
  {
    var ps := NormalizedAt(request, |request|);
    forall i | 0 <= i < |ps| ensures traps[i].scope == request[ps[i]].scope && traps[i].restore == request[ps[i]].restore {
      assert Request(traps)[i] == request[ps[i]];
    }
    assert TrapsAt(traps, request, ps);
  }

  // ----- where the tab key leads -----

  /** ps lists, in ascending order, exactly the positions below n whose facets are inside every trap. */
  ghost predicate AllowedPositions(w: Facts, traps: seq<Trap>, order: seq<nat>, n: nat, ps: seq<nat>)
    requires n <= |order|
  {
    InOrder(AllowedAt(w, traps, order, n), ps)
  }

  ghost function AllowedAt(w: Facts, traps: seq<Trap>, order: seq<nat>, n: nat): set<nat>
    requires n <= |order|
  {
    set p: nat | p < n && Allowed(w, traps, order[p])
  }

  lemma {:induction false} FilteredAt(w: Facts, traps: seq<Trap>, order: seq<nat>, n: nat) returns (ps: seq<nat>)
    requires n <= |order|
    ensures AllowedPositions(w, traps, order, n, ps)
    ensures |Filtered(w, traps, order, n)| == |ps| && forall i | 0 <= i < |ps| :: ps[i] < n && Allowed(w, traps, order[ps[i]]) && Filtered(w, traps, order, n)[i] == order[ps[i]]
  {
    ps := [];
    if n > 0 {
      ps := FilteredAt(w, traps, order, n - 1);
      var before, now := AllowedAt(w, traps, order, n - 1), AllowedAt(w, traps, order, n);
      if Allowed(w, traps, order[n - 1]) {
        InOrderNext(before, ps, n - 1);
        assert now == before + {n - 1};
        ps := ps + [n - 1];
      } else {
        assert now == before;
      }
    }
  }

  /** No facet of the order from position i up to j is inside every trap. */
  ghost predicate NoneBetween(w: Facts, traps: seq<Trap>, order: seq<nat>, i: nat, j: nat)
    requires j <= |order|
  {
    forall p: nat | i <= p < j :: !Allowed(w, traps, order[p])
  }

  /** In the list of allowed positions, the next allowed position after one comes right after it, or first after the last. */
  lemma NextIndex(w: Facts, traps: seq<Trap>, order: seq<nat>, ps: seq<nat>, m: nat, q: nat)
    requires m < |ps| && q < |ps| && (forall i, j | 0 <= i < j < |ps| :: ps[i] < ps[j])
    requires forall i | 0 <= i < |ps| :: ps[i] < |order| && Allowed(w, traps, order[ps[i]])
    requires if ps[m] < ps[q] then NoneBetween(w, traps, order, ps[m] + 1, ps[q]) else NoneBetween(w, traps, order, ps[m] + 1, |order|) && NoneBetween(w, traps, order, 0, ps[q])
    ensures if ps[m] < ps[q] then q == m + 1 else q == 0 && m + 1 == |ps|
  {
    assert m + 1 < |ps| ==> Allowed(w, traps, order[ps[m + 1]]);
    assert Allowed(w, traps, order[ps[0]]);
  }

  /**
   * From a facet inside the traps the tab key leads to the next facet of the whole order that is inside the traps,
   * and back; from the last such facet it leads to the first.
   */
  lemma NextMeaning(w: Facts, traps: seq<Trap>, order: seq<nat>, k: nat, j: nat)
    requires Distinct(order) && k < |order| && j < |order| && Allowed(w, traps, order[k]) && Allowed(w, traps, order[j])
    requires if k < j then NoneBetween(w, traps, order, k + 1, j) else NoneBetween(w, traps, order, k + 1, |order|) && NoneBetween(w, traps, order, 0, j)
    ensures Filtered(w, traps, order, |order|) != []
    ensures Forward(Filtered(w, traps, order, |order|), order[k]) == order[j]
    ensures Backward(Filtered(w, traps, order, |order|), order[j]) == order[k]
  {
    var kept := Filtered(w, traps, order, |order|);
    var ps := FilteredAt(w, traps, order, |order|);
    FilteredFacts(w, traps, order, |order|);
    assert k in AllowedAt(w, traps, order, |order|) && j in AllowedAt(w, traps, order, |order|);
    var m :| 0 <= m < |ps| && ps[m] == k;
    var q :| 0 <= q < |ps| && ps[q] == j;
    assert kept[m] == order[k] && kept[q] == order[j];
    IndexUnique(kept, m);
    IndexUnique(kept, q);
    NextIndex(w, traps, order, ps, m, q);
  }

  /** With focus nowhere in the order, the tab key leads to its first facet inside the traps and shift-tab to its last. */
  lemma EntryMeaning(w: Facts, traps: seq<Trap>, order: seq<nat>, focused: nat, j: nat, k: nat)
    requires j <= k < |order| && Allowed(w, traps, order[j]) && Allowed(w, traps, order[k]) && !(focused in order && Allowed(w, traps, focused))
    requires NoneBetween(w, traps, order, 0, j) && NoneBetween(w, traps, order, k + 1, |order|)
    ensures Filtered(w, traps, order, |order|) != []
    ensures Forward(Filtered(w, traps, order, |order|), focused) == order[j]
    ensures Backward(Filtered(w, traps, order, |order|), focused) == order[k]
  {
    var kept := Filtered(w, traps, order, |order|);
    var ps := FilteredAt(w, traps, order, |order|);
    FilteredFacts(w, traps, order, |order|);
    assert order[..|order|] == order;
    assert j in AllowedAt(w, traps, order, |order|) && k in AllowedAt(w, traps, order, |order|);
    var m :| 0 <= m < |ps| && ps[m] == j;
    var q :| 0 <= q < |ps| && ps[q] == k;
    assert m == 0 && q == |ps| - 1;
  }

  // ----- rebuilding the tab order -----

  /**
   * The entries are those of the focusable facets with a tab index of zero or more, each with its own identifier,
   * tab index and pre-order position, in ascending order of tab index and then position.
   */
  ghost predicate ListsTabbable(facets: seq<Facet>, sorted: seq<Entry>) {
    && (forall i | 0 <= i < |sorted| :: Names(facets, sorted[i]))
    && (forall i, j | 0 <= i < j < |sorted| :: sorted[i].index < sorted[j].index || (sorted[i].index == sorted[j].index && sorted[i].order < sorted[j].order))
    && (forall p | 0 <= p < |facets| && facets[p].data.Role? && facets[p].data.focusable && facets[p].data.tabIndex >= 0 :: Entry(facets[p].id, facets[p].data.tabIndex, p) in sorted)
  }

  ghost predicate Names(facets: seq<Facet>, e: Entry) {
    e.order < |facets| && e.id == facets[e.order].id && facets[e.order].data == Role(e.index, true) && e.index >= 0
  }

  lemma SortedNames(facets: seq<Facet>, sorted: seq<Entry>, e: Entry)
    requires IsSortOf(sorted, Entries(facets, |facets|), EntryKey()) && e in sorted
    ensures Names(facets, e)
  {
    EntriesFacts(facets, |facets|);
    InBoth(sorted, Entries(facets, |facets|), e);
    assert EntryOf(facets, |facets|, e);
  }

  lemma SortedAscends(sorted: seq<Entry>, i: nat, j: nat)
    requires Ascending(sorted, EntryKey()) && i < j < |sorted|
    ensures sorted[i].index < sorted[j].index || (sorted[i].index == sorted[j].index && sorted[i].order < sorted[j].order)
  {
    assert Before(EntryKey()(sorted[i]), EntryKey()(sorted[j]));
  }

  lemma SortedHas(facets: seq<Facet>, sorted: seq<Entry>, p: nat)
    requires IsSortOf(sorted, Entries(facets, |facets|), EntryKey())
    requires p < |facets| && facets[p].data.Role? && facets[p].data.focusable && facets[p].data.tabIndex >= 0
    ensures Entry(facets[p].id, facets[p].data.tabIndex, p) in sorted
  {
    EntriesFacts(facets, |facets|);
    assert Tabbable(facets[p]);
    InBoth(Entries(facets, |facets|), sorted, Entry(facets[p].id, facets[p].data.tabIndex, p));
  }

  lemma SortedMeaning(facets: seq<Facet>, sorted: seq<Entry>)
    requires IsSortOf(sorted, Entries(facets, |facets|), EntryKey())
    ensures ListsTabbable(facets, sorted)
  {
    forall i | 0 <= i < |sorted| ensures Names(facets, sorted[i]) {
      SortedNames(facets, sorted, sorted[i]);
    }
    forall i: nat, j: nat | i < j < |sorted| ensures sorted[i].index < sorted[j].index || (sorted[i].index == sorted[j].index && sorted[i].order < sorted[j].order) {
      SortedAscends(sorted, i, j);
    }
    forall p: nat | p < |facets| && facets[p].data.Role? && facets[p].data.focusable && facets[p].data.tabIndex >= 0 ensures Entry(facets[p].id, facets[p].data.tabIndex, p) in sorted {
      SortedHas(facets, sorted, p);
    }
  }

  datatype Entry = Entry(id: nat, index: int, order: nat)

  ghost function EntryKey(): Entry -> Key {
    (e: Entry) => Key(e.index, e.order, 0)
  }

  predicate Tabbable(f: Facet) {
    Focusable(f) && f.data.tabIndex >= 0
  }

  /** The tab entries of the first n facets in pre-order, numbered by their position. */
  function Entries(facets: seq<Facet>, n: nat): seq<Entry>
    requires n <= |facets|
  {
    if n == 0 then []
    else
      var before, f := Entries(facets, n - 1), facets[n - 1];
      if Tabbable(f) then before + [Entry(f.id, f.data.tabIndex, n - 1)] else before
  }

  /** The walk of RebuildTabOrder: pop, visit, push the children in reverse. It visits the tree in pre-order. */
  method VisitAll(root: Facet) returns (visited: seq<Facet>)
    ensures visited == Preorder(root)
  {
    visited := [];
    var stack := [root];
    assert stack[..0] == [];
    assert Waiting(stack) == Preorder(root) + Waiting<Role>([]);
    while stack != []
      invariant visited + Waiting(stack) == Preorder(root)
      decreases |Waiting(stack)|
    {
      var t, rest := stack[|stack| - 1], stack[..|stack| - 1];
      WaitingPush(rest, t.children);
      ghost var more := Forest(t.children) + Waiting(rest);
      assert Waiting(stack) == [t] + more;
      assert visited + ([t] + more) == (visited + [t]) + more;
      visited := visited + [t];
      stack := rest + Reverse(t.children);
    }
    assert visited + [] == visited;
  }

  method CollectEntries(facets: seq<Facet>) returns (entries: seq<Entry>)
    ensures entries == Entries(facets, |facets|)
  {
    entries := [];
    for n := 0 to |facets|
      invariant entries == Entries(facets, n)
    {
      if Tabbable(facets[n]) { entries := entries + [Entry(facets[n].id, facets[n].data.tabIndex, n)]; }
    }
  }

  /** Entry e describes the tabbable facet at its own position, below n. */
  predicate EntryOf(facets: seq<Facet>, n: nat, e: Entry)
    requires n <= |facets|
  {
    e.order < n && Tabbable(facets[e.order]) && e.id == facets[e.order].id && e.index == facets[e.order].data.tabIndex
  }

  /** The entries are exactly those of the tabbable facets, in order of position. */
  lemma {:induction false} EntriesFacts(facets: seq<Facet>, n: nat)
    requires n <= |facets|
    ensures forall k | 0 <= k < |Entries(facets, n)| :: EntryOf(facets, n, Entries(facets, n)[k])
    ensures forall j, k | 0 <= j < k < |Entries(facets, n)| :: Entries(facets, n)[j].order < Entries(facets, n)[k].order
    ensures forall i | 0 <= i < n && Tabbable(facets[i]) :: Entry(facets[i].id, facets[i].data.tabIndex, i) in Entries(facets, n)
  {
    if n > 0 {
      EntriesFacts(facets, n - 1);
      var before, es := Entries(facets, n - 1), Entries(facets, n);
      forall k | 0 <= k < |before| ensures es[k] == before[k] && EntryOf(facets, n, es[k]) {
        assert EntryOf(facets, n - 1, before[k]);
      }
      if Tabbable(facets[n - 1]) {
        assert EntryOf(facets, n, es[|before|]);
      }
    }
  }

  /** The tab order is the entries sorted by (tab index, pre-order position). */
  method SortedTabOrder(root: Facet) returns (sorted: seq<Entry>, order: seq<nat>)
    ensures IsSortOf(sorted, Entries(Preorder(root), |Preorder(root)|), EntryKey())
    ensures |order| == |sorted| && forall i | 0 <= i < |order| :: order[i] == sorted[i].id
  {
    var facets := VisitAll(root);
    var entries := CollectEntries(facets);
    EntriesFacts(facets, |facets|);
    sorted := Sort(entries, (e: Entry) => Key(e.index, e.order, 0));
    order := seq(|sorted|, i requires 0 <= i < |sorted| => sorted[i].id);
  }

  /** With unique facet identifiers the sorted tab order lists known focusable facets, each once. */
  lemma TabOrderOk(w: Facts, root: Facet, sorted: seq<Entry>)
    requires UniqueIDs(Preorder(root)) && Describes(w, root) && IsSortOf(sorted, Entries(Preorder(root), |Preorder(root)|), EntryKey())
    ensures forall i | 0 <= i < |sorted| :: sorted[i].id != 0 && sorted[i].id in w.focusable && HasID(Preorder(root), sorted[i].id)
    ensures forall i, j | 0 <= i < j < |sorted| :: sorted[i].id != sorted[j].id
  {
    var facets := Preorder(root);
    EntriesFacts(facets, |facets|);
    forall i | 0 <= i < |sorted| ensures EntryOf(facets, |facets|, sorted[i]) {
      InBoth(sorted, Entries(facets, |facets|), sorted[i]);
    }
    forall i, j | 0 <= i < j < |sorted| ensures sorted[i].id != sorted[j].id {
      assert Before(EntryKey()(sorted[i]), EntryKey()(sorted[j]));
    }
    forall i | 0 <= i < |sorted| ensures sorted[i].id in w.focusable && HasID(facets, sorted[i].id) {
      assert EntryOf(facets, |facets|, sorted[i]);
      assert facets[sorted[i].order] in facets;
    }
  }
}
