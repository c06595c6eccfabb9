/**
 * The live leases of the process (render/frame_pages.go, render/frame_group.go) with each Retain and Release taken as
 * one atomic action; their interleavings are the subject of FrameLeases. Identifiers of leases, frames and groups come
 * from one counter. A group owns one frame lease per window.
 */
module FrameTable {
  import FrameLeases

  const MAX_LEASES := FrameLeases.MAX_LEASES
  const MAX_WINDOWS := FrameLeases.MAX_WINDOWS

  /** Lease to the generation it holds, and for each group generation the member leases it owns. */
  datatype Table = Table(held: map<nat, nat>, members: map<nat, seq<nat>>, next: nat)

  ghost function On(held: map<nat, nat>, st: nat): set<nat> {
    set l | l in held && held[l] == st
  }

  /** A live lease that no group owns: only its holder can release it. */
  ghost predicate Free(t: Table, l: nat) {
    l in t.held && forall g <- t.members :: l !in t.members[g]
  }

  ghost predicate Numbered(t: Table) {
    && (forall l <- t.held :: l < t.next && t.held[l] < t.next)
    && (forall g <- t.members :: g < t.next && forall i | 0 <= i < |t.members[g]| :: t.members[g][i] < t.next)
  }

  /** No lease is owned twice. */
  ghost predicate OwnedOnce(members: map<nat, seq<nat>>) {
    && (forall g, h, l | g in members && h in members && l in members[g] && l in members[h] :: g == h)
    && (forall g <- members :: Distinct(members[g]))
  }

  ghost predicate Distinct(s: seq<nat>) {
    forall i, j | 0 <= i < j < |s| :: s[i] != s[j]
  }

  /** Every member lease of the group is live and holds a frame, each another frame. */
  ghost predicate MembersLive(t: Table, g: nat)
    requires g in t.members
  {
    && (forall i | 0 <= i < |t.members[g]| :: t.members[g][i] in t.held && t.held[t.members[g][i]] !in t.members)
    && (forall i, j | 0 <= i < j < |t.members[g]| :: t.members[g][i] in t.held && t.members[g][j] in t.held && t.held[t.members[g][i]] != t.held[t.members[g][j]])
  }

  ghost predicate TableOk(t: Table) {
    Numbered(t) && OwnedOnce(t.members) && forall l <- t.held :: t.held[l] in t.members ==> MembersLive(t, t.held[l])
  }

  /** Retain succeeds on a live generation below the lease limit. */
  ghost predicate Retainable(t: Table, st: nat) {
    0 < |On(t.held, st)| < MAX_LEASES
  }

  function Retained(t: Table, st: nat): Table {
    t.(held := t.held[t.next := st], next := t.next + 1)
  }

  ghost function Owned(t: Table, g: nat): set<nat>
    requires g in t.members
  {
    set l | l in t.members[g]
  }

  /** Releasing the last lease of a group also releases the member leases it owns. */
  ghost function Released(t: Table, l: nat): Table
    requires l in t.held
  {
    var st, rest := t.held[l], t.held - {l};
    t.(held := if st in t.members && On(rest, st) == {} then rest - Owned(t, st) else rest)
  }

  /** A new frame with its first lease. */
  function Sealed(t: Table): Table {
    t.(held := t.held[t.next + 1 := t.next], next := t.next + 2)
  }

  /** A new group that takes over the given frame leases, with its first lease. */
  function Grouped(t: Table, leases: seq<nat>): Table {
    t.(held := t.held[t.next + 1 := t.next], members := t.members[t.next := leases], next := t.next + 2)
  }

  ghost predicate Groupable(t: Table, leases: seq<nat>) {
    && 0 < |leases| <= MAX_WINDOWS
    && (forall i | 0 <= i < |leases| :: Free(t, leases[i]) && t.held[leases[i]] !in t.members)
    && (forall i, j | 0 <= i < j < |leases| :: leases[i] in t.held && leases[j] in t.held && t.held[leases[i]] != t.held[leases[j]])
  }

  // ----- what a step leaves alone -----

  /** From t to u no lease changes its generation, no group its members, and the leases of `mine` stay free. */
  ghost predicate Evolves(t: Table, u: Table, mine: set<nat>) {
    && TableOk(u) && t.next <= u.next
    && (forall g <- t.members :: g in u.members && u.members[g] == t.members[g])
    && (forall g <- u.members :: g in t.members || g >= t.next)
    && (forall l <- t.held :: l in u.held ==> u.held[l] == t.held[l])
    && (forall l <- u.held :: l in t.held || l >= t.next)
    && (forall l <- mine :: Free(t, l) ==> Free(u, l))
  }

  lemma EvolvesChain(t: Table, u: Table, v: Table, mine: set<nat>)
    requires TableOk(t) && Evolves(t, u, mine) && Evolves(u, v, mine)
    ensures Evolves(t, v, mine)
  {}

  lemma EvolvesSelf(t: Table, mine: set<nat>)
    requires TableOk(t)
    ensures Evolves(t, t, mine)
  {}

  lemma EvolvesLess(t: Table, u: Table, mine: set<nat>, fewer: set<nat>)
    requires Evolves(t, u, mine) && fewer <= mine
    ensures Evolves(t, u, fewer)
  {}

  lemma RetainKeeps(t: Table, st: nat, mine: set<nat>)
    requires TableOk(t) && On(t.held, st) != {}
    ensures Evolves(t, Retained(t, st), mine) && Free(Retained(t, st), t.next)
  {
    var u := Retained(t, st);
    var k :| k in On(t.held, st);
    forall l | l in u.held && u.held[l] in u.members ensures MembersLive(u, u.held[l]) {
      assert MembersLive(t, t.held[if l == t.next then k else l]);
    }
  }

  lemma SealKeeps(t: Table, mine: set<nat>)
    requires TableOk(t)
    ensures Evolves(t, Sealed(t), mine) && Free(Sealed(t), t.next + 1)
  {
    var u := Sealed(t);
    forall l | l in u.held && u.held[l] in u.members ensures MembersLive(u, u.held[l]) {
      assert MembersLive(t, t.held[l]);
    }
  }

  lemma GroupKeeps(t: Table, leases: seq<nat>, mine: set<nat>)
    requires TableOk(t) && Groupable(t, leases) && forall i | 0 <= i < |leases| :: leases[i] !in mine
    ensures Evolves(t, Grouped(t, leases), mine) && Free(Grouped(t, leases), t.next + 1)
  {
    var u := Grouped(t, leases);
    assert forall l <- leases :: Free(t, l);
    forall l | l in u.held && u.held[l] in u.members ensures MembersLive(u, u.held[l]) {
      if l != t.next + 1 { assert MembersLive(t, t.held[l]); }
    }
    forall l | l in mine && Free(t, l) ensures Free(u, l) {
      assert l !in leases;
    }
  }

  /** What releasing one lease does to the others: only members of a group that lost its last lease go with it. */
  lemma ReleasedFacts(t: Table, l: nat)
    requires l in t.held
    ensures
      var u := Released(t, l);
      && (forall k <- u.held :: k in t.held && u.held[k] == t.held[k] && k != l)
      && (forall k <- t.held :: k != l && k !in u.held ==> t.held[l] in t.members && k in t.members[t.held[l]] && On(t.held, t.held[l]) == {l})
  {
    var st, rest := t.held[l], t.held - {l};
    assert On(t.held, st) == On(rest, st) + {l};
  }

  /** Some lease other than l holds the same generation. */
  ghost predicate HeldElsewhere(t: Table, l: nat)
    requires l in t.held
  {
    exists k <- t.held :: k != l && t.held[k] == t.held[l]
  }

  /**
   * A release takes away the lease, and with a group's last lease every member lease of the group; it takes away
   * nothing else and moves no lease to another generation.
   */
  lemma ReleaseMeaning(t: Table, l: nat)
    requires l in t.held
    ensures
      var u := Released(t, l);
      && u.members == t.members && u.next == t.next && l !in u.held
      && (forall k <- u.held :: k in t.held && u.held[k] == t.held[k])
      && (forall k <- t.held :: k != l ==> (k !in u.held <==> t.held[l] in t.members && !HeldElsewhere(t, l) && k in t.members[t.held[l]]))
  {
    var st, rest := t.held[l], t.held - {l};
    forall k | k in On(rest, st) ensures HeldElsewhere(t, l) { assert k in t.held && k != l; }
    if HeldElsewhere(t, l) {
      var k :| k in t.held && k != l && t.held[k] == t.held[l];
      assert k in On(rest, st);
    }
  }

  lemma ReleaseKeeps(t: Table, l: nat, mine: set<nat>)
    requires TableOk(t) && Free(t, l) && l !in mine
    ensures Evolves(t, Released(t, l), mine)
  {
    var u := Released(t, l);
    ReleasedFacts(t, l);
    forall k | k in u.held && u.held[k] in u.members ensures MembersLive(u, u.held[k]) {
      var g := t.held[k];
      assert MembersLive(t, g);
      assert k in On(t.held, g);
    }
  }
}
