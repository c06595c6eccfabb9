/**
 * Publication of acknowledged frames (runtime/frame.go, runtime/drive_methods.go): a submitted frame group is kept
 * pending until its render completion, which either publishes the group's complete window set or nothing. The calls
 * run under the frame-view lock; between them other holders may retain, release, seal and group as they like.
 */
module FrameViews {
  import opened Machine
  import opened FrameTable
  import FrameSeal

  const PRIMARY := FrameSeal.PRIMARY

  datatype Descriptor = Descriptor(id: string, surface: nat, resource: nat)
  datatype Window = Window(desc: Descriptor, frame: nat)
  datatype Group = Group(lease: nat, storage: nat, windows: seq<Window>)
  datatype Completion = Completion(frame: nat, resource: nat, ready: bool, failed: bool, windowCount: nat,
                                   windows: seq<(Descriptor, bool)>)

  function IDs(g: Group): set<string> {
    set w | w in g.windows :: w.desc.id
  }

  ghost predicate DistinctIDs(g: Group) {
    forall i, j | 0 <= i < j < |g.windows| :: g.windows[i].desc.id != g.windows[j].desc.id
  }

  /** A lease on a group whose member leases are live leases on its windows' frames. */
  ghost predicate GroupOk(t: Table, g: Group) {
    && g.lease in t.held && t.held[g.lease] == g.storage && g.storage in t.members
    && 0 < |g.windows| == |t.members[g.storage]| <= MAX_WINDOWS && DistinctIDs(g)
    && forall i | 0 <= i < |g.windows| :: t.members[g.storage][i] in t.held && t.held[t.members[g.storage][i]] == g.windows[i].frame
  }

  /** The frames of a held group are live, are frames, and are all different. */
  lemma GroupFrames(t: Table, g: Group)
    requires TableOk(t) && GroupOk(t, g)
    ensures forall i | 0 <= i < |g.windows| :: g.windows[i].frame !in t.members && t.members[g.storage][i] in On(t.held, g.windows[i].frame)
    ensures forall i, j | 0 <= i < j < |g.windows| :: g.windows[i].frame != g.windows[j].frame
  {
    assert MembersLive(t, t.held[g.lease]);
  }

  lemma GroupEvolves(t: Table, u: Table, g: Group, mine: set<nat>)
    requires TableOk(t) && GroupOk(t, g) && Free(t, g.lease) && g.lease in mine && Evolves(t, u, mine)
    ensures GroupOk(u, g) && Free(u, g.lease)
  {
    assert MembersLive(u, u.held[g.lease]);
  }

  /** Distinct free leases on frames. */
  ghost predicate FrameLeasesOk(t: Table, leases: map<string, nat>) {
    && (forall id <- leases :: Free(t, leases[id]) && t.held[leases[id]] !in t.members)
    && (forall id, jd | id in leases && jd in leases && id != jd :: leases[id] != leases[jd])
  }

  /** The published map shows exactly the windows of one group, each lease on that window's frame. */
  ghost predicate Shows(t: Table, leases: map<string, nat>, g: Group) {
    && leases.Keys == IDs(g)
    && forall w <- g.windows :: w.desc.id in leases && leases[w.desc.id] in t.held && t.held[leases[w.desc.id]] == w.frame
  }

  // ----- retaining the windows of a group one after the other -----

  /** The frame that lease l holds when the windows of g are retained from `base` on. */
  ghost function FrameFrom(g: Group, base: nat, l: nat): nat
    requires base <= l < base + |g.windows|
  {
    g.windows[l - base].frame
  }

  /** The leases on the first i windows of g: fresh identifiers, counting up. */
  ghost function Fresh(base: nat, g: Group, i: nat): (m: map<nat, nat>)
    requires i <= |g.windows|
  {
    map l: nat | base <= l < base + i :: FrameFrom(g, base, l)
  }

  /** The table after the first i windows of g were retained. */
  ghost function Extend(t: Table, g: Group, i: nat): Table
    requires i <= |g.windows|
  {
    t.(held := t.held + Fresh(t.next, g, i), next := t.next + i)
  }

  /** The window map built alongside. */
  ghost function Named(base: nat, g: Group, i: nat): map<string, nat>
    requires i <= |g.windows| && DistinctIDs(g)
  {
    map j: nat | 0 <= j < i :: g.windows[j].desc.id := base + j
  }

  lemma ExtendNext(t: Table, g: Group, i: nat)
    requires i < |g.windows|
    ensures Extend(t, g, i + 1) == Retained(Extend(t, g, i), g.windows[i].frame)
  {
    assert Fresh(t.next, g, i + 1) == Fresh(t.next, g, i)[t.next + i := g.windows[i].frame];
  }

  lemma ExtendNone(t: Table, g: Group)
    ensures Extend(t, g, 0) == t
  {
    assert Fresh(t.next, g, 0) == map[];
  }

  /** Adding leases on frames under fresh numbers disturbs nothing. */
  lemma AddFrames(t: Table, more: map<nat, nat>, next: nat, mine: set<nat>)
    requires TableOk(t) && t.next <= next && forall l <- more :: t.next <= l < next && more[l] !in t.members && more[l] < t.next
    ensures Evolves(t, t.(held := t.held + more, next := next), mine)
  {
    var u := t.(held := t.held + more, next := next);
    forall l | l in u.held && u.held[l] in u.members ensures MembersLive(u, u.held[l]) {
      assert l !in more;
      assert MembersLive(t, t.held[l]);
    }
  }

  lemma ExtendKeeps(t: Table, g: Group, i: nat, mine: set<nat>)
    requires TableOk(t) && GroupOk(t, g) && i <= |g.windows|
    ensures Evolves(t, Extend(t, g, i), mine)
  {
    GroupFrames(t, g);
    forall l | l in Fresh(t.next, g, i) ensures Fresh(t.next, g, i)[l] !in t.members && Fresh(t.next, g, i)[l] < t.next {
      assert Fresh(t.next, g, i)[l] == g.windows[l - t.next].frame;
    }
    AddFrames(t, Fresh(t.next, g, i), t.next + i, mine);
  }

  /** There is room for one more lease on every window's frame. */
  ghost predicate Room(t: Table, g: Group) {
    forall i | 0 <= i < |g.windows| :: |On(t.held, g.windows[i].frame)| < MAX_LEASES
  }

  /** Retaining some windows of a group does not use up the room of another. */
  lemma ExtendLeavesRoom(t: Table, g: Group, i: nat)
    requires TableOk(t) && GroupOk(t, g) && i < |g.windows|
    ensures On(Extend(t, g, i).held, g.windows[i].frame) == On(t.held, g.windows[i].frame)
    ensures Retainable(Extend(t, g, i), g.windows[i].frame) <==> |On(t.held, g.windows[i].frame)| < MAX_LEASES
  {
    GroupFrames(t, g);
    var u, frame := Extend(t, g, i), g.windows[i].frame;
    forall l | l in On(u.held, frame) ensures l in On(t.held, frame) {
      assert l in t.held || l == t.next + (l - t.next);
    }
    assert t.members[g.storage][i] in On(t.held, frame);
  }

  lemma NamedNext(base: nat, g: Group, i: nat)
    requires i < |g.windows| && DistinctIDs(g)
    ensures Named(base, g, i + 1) == Named(base, g, i)[g.windows[i].desc.id := base + i]
  {}

  /** The new leases are exactly the fresh numbers. */
  lemma NamedValues(base: nat, g: Group, i: nat)
    requires i <= |g.windows| && DistinctIDs(g)
    ensures Named(base, g, i).Values == Fresh(base, g, i).Keys
  {
    var n := Named(base, g, i);
    forall l | l in Fresh(base, g, i) ensures l in n.Values {
      assert n[g.windows[l - base].desc.id] == l;
    }
  }

  /** The lease on window j is free, and on that window's frame. */
  lemma FreshIsFree(t: Table, g: Group, i: nat, j: nat)
    requires TableOk(t) && j < i <= |g.windows| && g.windows[j].frame !in t.members
    ensures var u := Extend(t, g, i); Free(u, t.next + j) && u.held[t.next + j] == g.windows[j].frame && u.members == t.members
  {
    assert FrameFrom(g, t.next, t.next + j) == g.windows[j].frame;
    assert t.next + j in Fresh(t.next, g, i);
  }

  lemma NamedInjective(base: nat, g: Group, i: nat)
    requires i <= |g.windows| && DistinctIDs(g)
    ensures var n := Named(base, g, i); forall id, jd | id in n && jd in n && id != jd :: n[id] != n[jd]
  {}

  lemma NamedIsFree(t: Table, g: Group, i: nat, id: string)
    requires TableOk(t) && GroupOk(t, g) && i <= |g.windows| && id in Named(t.next, g, i)
    ensures var u, n := Extend(t, g, i), Named(t.next, g, i); Free(u, n[id]) && u.held[n[id]] !in u.members
  {
    GroupFrames(t, g);
    var j :| 0 <= j < i && g.windows[j].desc.id == id;
    FreshIsFree(t, g, i, j);
  }

  lemma ExtendLeases(t: Table, g: Group, i: nat)
    requires TableOk(t) && GroupOk(t, g) && i <= |g.windows|
    ensures FrameLeasesOk(Extend(t, g, i), Named(t.next, g, i))
  {
    var u, n := Extend(t, g, i), Named(t.next, g, i);
    NamedInjective(t.next, g, i);
    forall id | id in n ensures Free(u, n[id]) && u.held[n[id]] !in u.members {
      NamedIsFree(t, g, i, id);
    }
  }

  lemma ExtendUndone(t: Table, g: Group, i: nat)
    requires TableOk(t) && GroupOk(t, g) && i <= |g.windows|
    ensures Extend(t, g, i).held - Named(t.next, g, i).Values == t.held
  {
    NamedValues(t.next, g, i);
  }

  lemma WindowShown(t: Table, g: Group, i: nat, j: nat)
    requires TableOk(t) && DistinctIDs(g) && j < i <= |g.windows|
    ensures var u, n, id := Extend(t, g, i), Named(t.next, g, i), g.windows[j].desc.id; id in n && n[id] in u.held && u.held[n[id]] == g.windows[j].frame
  {
    NamedAt(t.next, g, i, j);
    FreshAt(t.next, g, i, j);
  }

  lemma NamedAt(base: nat, g: Group, i: nat, j: nat)
    requires DistinctIDs(g) && j < i <= |g.windows|
    ensures g.windows[j].desc.id in Named(base, g, i) && Named(base, g, i)[g.windows[j].desc.id] == base + j
  {}

  lemma FreshAt(base: nat, g: Group, i: nat, j: nat)
    requires j < i <= |g.windows|
    ensures base + j in Fresh(base, g, i) && Fresh(base, g, i)[base + j] == g.windows[j].frame
  {
    assert FrameFrom(g, base, base + j) == g.windows[j].frame;
  }

  lemma NamedKeys(base: nat, g: Group)
    requires DistinctIDs(g)
    ensures Named(base, g, |g.windows|).Keys == IDs(g)
  {
    forall w | w in g.windows ensures w.desc.id in Named(base, g, |g.windows|) {
      var j :| 0 <= j < |g.windows| && g.windows[j] == w;
    }
  }

  lemma ExtendShows(t: Table, g: Group)
    requires TableOk(t) && DistinctIDs(g)
    ensures Shows(Extend(t, g, |g.windows|), Named(t.next, g, |g.windows|), g)
  {
    NamedKeys(t.next, g);
    var u, n := Extend(t, g, |g.windows|), Named(t.next, g, |g.windows|);
    forall w | w in g.windows ensures w.desc.id in n && n[w.desc.id] in u.held && u.held[n[w.desc.id]] == w.frame {
      var j :| 0 <= j < |g.windows| && g.windows[j] == w;
      WindowShown(t, g, |g.windows|, j);
    }
  }

  /** One more window retained. */
  lemma NextWindow(t: Table, g: Group, i: nat)
    requires i < |g.windows| && DistinctIDs(g)
    ensures Extend(t, g, i + 1) == Retained(Extend(t, g, i), g.windows[i].frame) && Extend(t, g, i).next == t.next + i
    ensures Named(t.next, g, i + 1) == Named(t.next, g, i)[g.windows[i].desc.id := t.next + i]
    ensures Named(t.next, g, i + 1).Values == Named(t.next, g, i).Values + {t.next + i}
  {
    ExtendNext(t, g, i);
    NamedNext(t.next, g, i);
    NamedValues(t.next, g, i);
    NamedValues(t.next, g, i + 1);
    FreshKeys(t.next, g, i);
  }

  lemma FreshKeys(base: nat, g: Group, i: nat)
    requires i < |g.windows|
    ensures Fresh(base, g, i + 1).Keys == Fresh(base, g, i).Keys + {base + i}
  {}

  /** Releasing the windows retained so far leads back to the leases before. */
  lemma UndoWindows(t: Table, g: Group, i: nat, owned: set<nat>)
    requires TableOk(t) && GroupOk(t, g) && i <= |g.windows| && forall l <- owned :: l < t.next
    ensures FrameLeasesOk(Extend(t, g, i), Named(t.next, g, i))
    ensures Extend(t, g, i).held - Named(t.next, g, i).Values == t.held
    ensures owned + Named(t.next, g, i).Values - Named(t.next, g, i).Values == owned
  {
    ExtendLeases(t, g, i);
    ExtendUndone(t, g, i);
    NamedValues(t.next, g, i);
  }

  /** Releasing free frame leases together. */
  lemma DropFrames(t: Table, leases: set<nat>, mine: set<nat>)
    requires TableOk(t) && leases !! mine && forall l <- leases :: Free(t, l) && t.held[l] !in t.members
    ensures Evolves(t, t.(held := t.held - leases), mine)
  {
    var u := t.(held := t.held - leases);
    forall l | l in u.held && u.held[l] in u.members ensures MembersLive(u, u.held[l]) {
      assert MembersLive(t, t.held[l]);
    }
  }

  // ----- what the runtime keeps true -----

  ghost function GroupLeases(pending: map<nat, Group>): set<nat> {
    set f | f in pending :: pending[f].lease
  }

  ghost predicate PendingOk(t: Table, pending: map<nat, Group>) {
    && (forall f <- pending :: GroupOk(t, pending[f]) && Free(t, pending[f].lease))
    && (forall f, f' | f in pending && f' in pending && f != f' :: pending[f].lease != pending[f'].lease)
  }

  ghost predicate PublishedOk(t: Table, published: map<string, nat>, shown: Option<Group>) {
    FrameLeasesOk(t, published) && (published != map[] ==> shown.Some? && Shows(t, published, shown.value))
  }

  /** A step that leaves the runtime's group leases alone keeps what is pending. */
  lemma PendingEvolves(t: Table, u: Table, pending: map<nat, Group>, mine: set<nat>)
    requires TableOk(t) && PendingOk(t, pending) && GroupLeases(pending) <= mine && Evolves(t, u, mine)
    ensures PendingOk(u, pending)
  {
    forall f | f in pending ensures GroupOk(u, pending[f]) && Free(u, pending[f].lease) {
      assert pending[f].lease in GroupLeases(pending);
      GroupEvolves(t, u, pending[f], mine);
    }
  }

  /** A step that leaves the runtime's frame leases alone keeps what is published. */
  lemma PublishedEvolves(t: Table, u: Table, published: map<string, nat>, shown: Option<Group>, mine: set<nat>)
    requires TableOk(t) && PublishedOk(t, published, shown) && published.Values <= mine && Evolves(t, u, mine)
    ensures PublishedOk(u, published, shown)
  {
    forall id | id in published ensures Free(u, published[id]) && u.held[published[id]] == t.held[published[id]] && u.held[published[id]] !in u.members {
      assert published[id] in published.Values && Free(t, published[id]);
    }
  }

  /** The table right after publishing g: its windows retained, the previously published ones released. */
  ghost function Published(t: Table, published: map<string, nat>, g: Group): Table {
    var u := Extend(t, g, |g.windows|);
    u.(held := u.held - published.Values)
  }

  lemma PublishEvolves(t: Table, published: map<string, nat>, g: Group, mine: set<nat>)
    requires TableOk(t) && GroupOk(t, g) && FrameLeasesOk(t, published) && mine !! published.Values
    ensures Evolves(t, Published(t, published, g), mine)
  {
    var u := Extend(t, g, |g.windows|);
    ExtendKeeps(t, g, |g.windows|, mine + published.Values);
    EvolvesLess(t, u, mine + published.Values, mine);
    OldLeasesStay(t, published, g);
    DropFrames(u, published.Values, mine);
    EvolvesChain(t, u, Published(t, published, g), mine);
  }

  lemma OldLeasesStay(t: Table, published: map<string, nat>, g: Group)
    requires TableOk(t) && GroupOk(t, g) && FrameLeasesOk(t, published)
    ensures forall l <- published.Values :: Free(Extend(t, g, |g.windows|), l) && Extend(t, g, |g.windows|).held[l] !in t.members
    ensures Extend(t, g, |g.windows|).members == t.members
  {
    ExtendKeeps(t, g, |g.windows|, published.Values);
  }

  /** What is published afterwards is the complete window set of the group. */
  lemma PublishShows(t: Table, published: map<string, nat>, g: Group)
    requires TableOk(t) && GroupOk(t, g) && FrameLeasesOk(t, published)
    ensures PublishedOk(Published(t, published, g), Named(t.next, g, |g.windows|), Some(g))
  {
    var u, n := Extend(t, g, |g.windows|), Named(t.next, g, |g.windows|);
    ExtendLeases(t, g, |g.windows|);
    ExtendKeeps(t, g, |g.windows|, {});
    ExtendShows(t, g);
    NamedValues(t.next, g, |g.windows|);
    assert n.Values !! published.Values by { assert forall l <- published.Values :: l in t.held; }
    OldLeasesStay(t, published, g);
    DropFrames(u, published.Values, n.Values);
    PublishedEvolves(u, Published(t, published, g), n, Some(g), n.Values);
  }

  lemma ConsumeKeeps(t: Table, pending: map<nat, Group>, published: map<string, nat>, shown: Option<Group>, f: nat)
    requires TableOk(t) && PendingOk(t, pending) && PublishedOk(t, published, shown) && f in pending
    ensures
      var u := Released(t, pending[f].lease);
      TableOk(u) && PendingOk(u, pending - {f}) && PublishedOk(u, published, shown)
  {
    var l, mine := pending[f].lease, GroupLeases(pending - {f}) + published.Values;
    assert l !in published.Values;
    ReleaseKeeps(t, l, mine);
    PendingEvolves(t, Released(t, l), pending - {f}, mine);
    PublishedEvolves(t, Released(t, l), published, shown, mine);
  }

  // ----- conservation -----

  /** The leases the runtime itself holds: one per pending group, one per published window. */
  ghost function HeldBy(pending: map<nat, Group>, published: map<string, nat>): set<nat> {
    GroupLeases(pending) + published.Values
  }

  /** No group owns this lease. */
  ghost predicate Unowned(members: map<nat, seq<nat>>, l: nat) {
    forall g <- members :: l !in members[g]
  }

  /**
   * Nothing leaks and nobody else is robbed: every live lease the runtime does not hold was live and not
   * the runtime's before, and no lease that another holder holds himself disappears.
   */
  ghost predicate Conserved(held: map<nat, nat>, members: map<nat, seq<nat>>, mine: set<nat>, held': map<nat, nat>, mine': set<nat>) {
    && mine' <= held'.Keys
    && (forall l <- held' :: l !in mine' ==> l in held && l !in mine && held'[l] == held[l])
    && (forall l <- held :: l !in mine && Unowned(members, l) ==> l in held')
  }

  /** A lease that a group owns disappears only when the group has lost its last lease. */
  lemma MemberGoneGroupGone(t: Table, g: nat, l: nat)
    requires TableOk(t) && g in t.members && l in t.members[g] && l !in t.held
    ensures On(t.held, g) == {}
  {
    assert forall k <- t.held :: t.held[k] == g ==> MembersLive(t, g);
  }

  /** So another holder's lease is lost only as a member of a group that has lost its last lease. */
  lemma LostOnlyWithGroup(held: map<nat, nat>, t: Table, mine: set<nat>, mine': set<nat>, l: nat)
    requires TableOk(t) && Conserved(held, t.members, mine, t.held, mine') && l in held && l !in mine && l !in t.held
    ensures exists g <- t.members :: l in t.members[g] && On(t.held, g) == {}
  {
    assert !Unowned(t.members, l);
    var g :| g in t.members && l in t.members[g];
    MemberGoneGroupGone(t, g, l);
  }

  lemma LeasesWith(pending: map<nat, Group>, f: nat, g: Group)
    requires f !in pending
    ensures GroupLeases(pending[f := g]) == GroupLeases(pending) + {g.lease}
  {
    var more := pending[f := g];
    assert more[f] == g && forall k <- pending :: more[k] == pending[k];
  }

  lemma LeasesWithout(pending: map<nat, Group>, f: nat)
    requires f in pending && forall k, k' | k in pending && k' in pending && k != k' :: pending[k].lease != pending[k'].lease
    ensures GroupLeases(pending - {f}) == GroupLeases(pending) - {pending[f].lease}
  {
    assert forall p <- pending :: p == f || p in pending - {f};
  }

  lemma ReleaseConserves(t: Table, pending: map<nat, Group>, published: map<string, nat>, shown: Option<Group>, f: nat)
    requires TableOk(t) && PendingOk(t, pending) && PublishedOk(t, published, shown) && f in pending
    ensures Conserved(t.held, t.members, HeldBy(pending, published), Released(t, pending[f].lease).held, HeldBy(pending - {f}, published))
    ensures HeldBy(pending - {f}, published) <= HeldBy(pending, published) && Within(Released(t, pending[f].lease).held, t.held)
  {
    var l := pending[f].lease;
    var u := Released(t, l);
    ConsumeKeeps(t, pending, published, shown, f);
    ReleasedFacts(t, l);
    LeasesWithout(pending, f);
  }

  /** Publishing swaps the old window leases for new ones and touches no other lease. */
  lemma PublishedKeys(t: Table, published: map<string, nat>, g: Group)
    requires TableOk(t) && GroupOk(t, g) && FrameLeasesOk(t, published)
    ensures
      var u, next := Published(t, published, g), Named(t.next, g, |g.windows|);
      && u.held.Keys == (t.held.Keys - published.Values) + next.Values
      && (forall l <- u.held :: l in t.held ==> u.held[l] == t.held[l])
      && next.Values !! t.held.Keys
  {
    NamedValues(t.next, g, |g.windows|);
    assert forall l <- published.Values :: l in t.held;
  }

  lemma ReadyConserves(t: Table, pending: map<nat, Group>, published: map<string, nat>, shown: Option<Group>, f: nat)
    requires TableOk(t) && PendingOk(t, pending) && PublishedOk(t, published, shown) && f in pending
    ensures
      var g := pending[f];
      var u, next := Published(t, published, g), Named(t.next, g, |g.windows|);
      g.lease in u.held && Conserved(t.held, t.members, HeldBy(pending, published), Released(u, g.lease).held, HeldBy(pending - {f}, next))
  {
    var g := pending[f];
    var u, next := Published(t, published, g), Named(t.next, g, |g.windows|);
    PublishKeepsPending(t, pending, published, g);
    PublishShows(t, published, g);
    ReleaseConserves(u, pending, next, Some(g), f);
    assert u.members == t.members;
    PublishedKeys(t, published, g);
    ConservedAfterSwap(t.held, t.members, GroupLeases(pending), published.Values, u.held, next.Values, Released(u, g.lease).held, HeldBy(pending - {f}, next));
  }

  lemma PublishKeepsPending(t: Table, pending: map<nat, Group>, published: map<string, nat>, g: Group)
    requires TableOk(t) && PendingOk(t, pending) && FrameLeasesOk(t, published) && GroupOk(t, g)
    ensures TableOk(Published(t, published, g)) && PendingOk(Published(t, published, g), pending)
  {
    assert GroupLeases(pending) !! published.Values;
    PublishEvolves(t, published, g, GroupLeases(pending));
    PendingEvolves(t, Published(t, published, g), pending, GroupLeases(pending));
  }

  lemma ConservedAfterSwap(held: map<nat, nat>, members: map<nat, seq<nat>>, groups: set<nat>, old': set<nat>,
                           mid: map<nat, nat>, new': set<nat>, end: map<nat, nat>, mine: set<nat>)
    requires mid.Keys == (held.Keys - old') + new' && new' !! held.Keys && groups <= held.Keys
    requires forall l <- mid :: l in held ==> mid[l] == held[l]
    requires Conserved(mid, members, groups + new', end, mine)
    ensures Conserved(held, members, groups + old', end, mine)
  {}

  ghost predicate Within(a: map<nat, nat>, b: map<nat, nat>) {
    forall l <- a :: l in b && a[l] == b[l]
  }

  lemma ConservedChain(h0: map<nat, nat>, members: map<nat, seq<nat>>, m0: set<nat>, h1: map<nat, nat>, m1: set<nat>, h2: map<nat, nat>, m2: set<nat>)
    requires Conserved(h0, members, m0, h1, m1) && Conserved(h1, members, m1, h2, m2) && m1 <= m0 && Within(h2, h1)
    ensures Conserved(h0, members, m0, h2, m2)
  {}

  lemma NothingYet(t: Table, pending: map<nat, Group>, published: map<string, nat>, shown: Option<Group>)
    requires PendingOk(t, pending) && PublishedOk(t, published, shown)
    ensures Conserved(t.held, t.members, HeldBy(pending, published), t.held, HeldBy(pending, published))
  {}

  lemma UnpublishConserves(t: Table, published: map<string, nat>)
    ensures Conserved(t.held, t.members, HeldBy(map[], published), t.held - published.Values, {})
    ensures Within(t.held - published.Values, t.held)
  {}

  // ----- the runtime -----

  class Runtime {
    var table: Table
    var pending: map<nat, Group>
    var published: map<string, nat>
    var frameNumber: nat
    var lastReady: nat
    var surface: nat
    /** The group whose windows are published, and every lease the runtime took and has not given back. */
    ghost var shown: Option<Group>
    ghost var owned: set<nat>

    constructor (t: Table)
      requires TableOk(t)
      ensures Valid() && table == t && pending == map[] && published == map[] && owned == {}
      ensures frameNumber == 0 && lastReady == 0 && surface == 0
    {
      table, pending, published, frameNumber, lastReady, surface, shown, owned := t, map[], map[], 0, 0, 0, None, {};
    }

    /** The leases the runtime owes back are exactly one per pending group and one per published window. */
    ghost predicate Valid()
      reads this
    {
      && TableOk(table) && PendingOk(table, pending) && PublishedOk(table, published, shown)
      && owned == HeldBy(pending, published)
      && forall f <- pending :: f <= frameNumber
    }

    // ----- steps of other holders between the runtime's calls -----

    /** A step of anyone else that leaves the runtime's own leases alone keeps what the runtime relies on. */
    lemma OthersKeep(u: Table)
      requires Valid() && Evolves(table, u, owned)
      ensures TableOk(u) && PendingOk(u, pending) && PublishedOk(u, published, shown)
    {
      PendingEvolves(table, u, pending, owned);
      PublishedEvolves(table, u, published, shown, owned);
    }

    method OtherRetains(l: nat) returns (k: Option<nat>)
      requires Valid() && l in table.held
      modifies this`table
      ensures Valid() && (k.Some? <==> |On(old(table).held, old(table).held[l])| < MAX_LEASES)
      ensures table == if k.Some? then Retained(old(table), old(table).held[l]) else old(table)
      ensures k.Some? ==> k.value == old(table).next
    {
      var st := table.held[l];
      var on := set k | k in table.held && table.held[k] == st;
      assert on == On(table.held, st) && l in on;
      if |on| >= MAX_LEASES { return None; }
      RetainKeeps(table, st, owned);
      OthersKeep(Retained(table, st));
      k := Some(table.next);
      table := Retained(table, st);
    }

    method OtherReleases(l: nat)
      requires Valid() && Free(table, l) && l !in owned
      modifies this`table
      ensures Valid() && table == Released(old(table), l)
    {
      ReleaseKeeps(table, l, owned);
      OthersKeep(Released(table, l));
      ReleaseLease(l);
    }

    method OtherSeals() returns (l: nat)
      requires Valid()
      modifies this`table
      ensures Valid() && table == Sealed(old(table)) && Free(table, l) && l !in owned && l == old(table).next + 1
    {
      SealKeeps(table, owned);
      OthersKeep(Sealed(table));
      l := table.next + 1;
      NewIsNotMine(l);
      table := Sealed(table);
    }

    method OtherGroups(leases: seq<nat>) returns (l: nat)
      requires Valid() && Groupable(table, leases) && forall i | 0 <= i < |leases| :: leases[i] !in owned
      modifies this`table
      ensures Valid() && table == Grouped(old(table), leases) && Free(table, l) && l !in owned && l == old(table).next + 1
    {
      GroupKeeps(table, leases, owned);
      OthersKeep(Grouped(table, leases));
      l := table.next + 1;
      NewIsNotMine(l);
      table := Grouped(table, leases);
    }

    lemma NewIsNotMine(l: nat)
      requires Valid() && l >= table.next
      ensures l !in owned
    {}

    /** The surface was lost or recreated: the primary windows of older groups can no longer become ready. */
    method SurfaceChanged()
      requires Valid()
      modifies this`surface
      ensures Valid() && surface == old(surface) + 1
    {
      surface := surface + 1;
    }

    // ----- submission -----

    /**
     * Submit a sealed group: take the runtime's own lease and remember it under the new frame number. When the group's
     * lease limit refuses it, the caller's lease is released and nothing is pending.
     */
    method Submit(frame: Group) returns (ok: bool)
      requires Valid() && GroupOk(table, frame) && Free(table, frame.lease) && frame.lease !in owned
      modifies this`table, this`pending, this`frameNumber, this`owned
      ensures Valid() && frameNumber == old(frameNumber) + 1 && frameNumber !in old(pending)
      ensures ok <==> |On(old(table).held, frame.storage)| < MAX_LEASES
      ensures ok ==> pending == old(pending)[frameNumber := frame.(lease := old(table).next)] && table == Retained(old(table), frame.storage)
      ensures ok ==> Free(table, frame.lease) && frame.lease !in owned
      ensures !ok ==> pending == old(pending) && table == Released(old(table), frame.lease)
    {
      frameNumber := frameNumber + 1;
      var on := set k | k in table.held && table.held[k] == frame.storage;
      assert on == On(table.held, frame.storage);
      ok := |on| < MAX_LEASES;
      if ok { Remember(frame); } else { OtherReleases(frame.lease); }
    }

    /** Retain the group and keep the new lease pending under the current frame number. */
    method Remember(frame: Group)
      requires Valid() && frameNumber !in pending && GroupOk(table, frame) && Free(table, frame.lease) && frame.lease !in owned
      modifies this`table, this`pending, this`owned
      ensures Valid() && pending == old(pending)[frameNumber := frame.(lease := old(table).next)] && table == Retained(old(table), frame.storage)
      ensures Free(table, frame.lease) && frame.lease !in owned
    {
      SubmitKeeps(table, pending, published, shown, frame, frameNumber);
      NewIsNotMine(table.next);
      pending := pending[frameNumber := frame.(lease := table.next)];
      owned := owned + {table.next};
      table := Retained(table, frame.storage);
    }

    /** Release one lease; a group's last release gives its member leases back too. */
    method ReleaseLease(l: nat)
      requires l in table.held
      modifies this`table
      ensures table == Released(old(table), l)
    {
      var st, rest := table.held[l], table.held - {l};
      var on := set k | k in rest && rest[k] == st;
      assert on == On(rest, st);
      if st in table.members && on == {} {
        var gone := set k | k in table.members[st];
        assert gone == Owned(table, st);
        rest := rest - gone;
      }
      table := table.(held := rest);
    }

    // ----- completion -----

    /** The reasons a ready completion is refused: an older frame, another window count, a window that differs, an ended surface. */
    ghost predicate Stale(c: Completion, g: Group)
      requires |c.windows| == MAX_WINDOWS && |g.windows| <= MAX_WINDOWS
      reads this
    {
      || c.frame < lastReady
      || c.windowCount != |g.windows|
      || (exists i | 0 <= i < |g.windows| :: c.windows[i] != (g.windows[i].desc, true))
      || (exists w <- g.windows :: w.desc.id == PRIMARY && w.desc.surface != surface)
    }

    /**
     * The completion is not older than what is shown and names exactly the group's windows, all of them ready, the
     * primary one still on the current surface; and every window's frame can take one more lease.
     */
    ghost predicate Publishable(c: Completion, g: Group)
      requires |c.windows| == MAX_WINDOWS && |g.windows| <= MAX_WINDOWS
      reads this
    {
      && c.frame >= lastReady && c.windowCount == |g.windows|
      && (forall i | 0 <= i < |g.windows| :: c.windows[i].0 == g.windows[i].desc && c.windows[i].1)
      && (forall i | 0 <= i < |g.windows| :: g.windows[i].desc.id == PRIMARY ==> g.windows[i].desc.surface == surface)
      && (forall i | 0 <= i < |g.windows| :: |set l | l in table.held && table.held[l] == g.windows[i].frame| < 8)
    }

    lemma PublishableMeans(c: Completion, g: Group)
      requires |c.windows| == MAX_WINDOWS && |g.windows| <= MAX_WINDOWS
      ensures Publishable(c, g) <==> !Stale(c, g) && Room(table, g)
    {
      forall i | 0 <= i < |g.windows| ensures On(table.held, g.windows[i].frame) == set l | l in table.held && table.held[l] == g.windows[i].frame {}
      assert forall i | 0 <= i < |g.windows| :: g.windows[i] in g.windows;
    }

    /** The checks made before anything is retained. */
    method Admissible(c: Completion, g: Group) returns (ok: bool)
      requires |c.windows| == MAX_WINDOWS && |g.windows| <= MAX_WINDOWS
      ensures ok <==> !Stale(c, g)
    {
      if c.frame < lastReady || c.windowCount != |g.windows| { return false; }
      for i := 0 to |g.windows|
        invariant forall j | 0 <= j < i :: c.windows[j] == (g.windows[j].desc, true) && (g.windows[j].desc.id == PRIMARY ==> g.windows[j].desc.surface == surface)
      {
        if !c.windows[i].1 || c.windows[i].0 != g.windows[i].desc { return false; }
        if g.windows[i].desc.id == PRIMARY && g.windows[i].desc.surface != surface { return false; }
      }
      ok := true;
    }

    /** Frame.Retain on one window of a group. */
    method RetainFrame(st: nat) returns (l: Option<nat>)
      modifies this`table, this`owned
      ensures l.Some? <==> Retainable(old(table), st)
      ensures l.None? ==> table == old(table) && owned == old(owned)
      ensures l.Some? ==> l.value == old(table.next) && table == Retained(old(table), st) && owned == old(owned) + {l.value}
    {
      var on := set k | k in table.held && table.held[k] == st;
      assert on == On(table.held, st);
      if |on| == 0 || |on| >= MAX_LEASES { return None; }
      l := Some(table.next);
      table := Retained(table, st);
      owned := owned + {l.value};
    }

    /** Release a set of frame leases; nothing else changes. */
    method ReleaseFrames(leases: map<string, nat>)
      requires FrameLeasesOk(table, leases)
      modifies this`table, this`owned
      ensures table == old(table).(held := old(table.held) - leases.Values) && owned == old(owned) - leases.Values
    {
      var todo := leases.Keys;
      ghost var gone: set<nat> := {};
      while todo != {}
        invariant todo <= leases.Keys
        invariant gone == set id | id in leases && id !in todo :: leases[id]
        invariant table == old(table).(held := old(table.held) - gone) && owned == old(owned) - gone
      {
        var id :| id in todo;
        var l := leases[id];
        assert l !in gone && Free(old(table), l);
        table := table.(held := table.held - {l});
        owned := owned - {l};
        gone := gone + {l};
        todo := todo - {id};
      }
      assert gone == leases.Values;
    }

    /** The first i windows of g are retained on top of table t. */
    ghost predicate Retaining(t: Table, g: Group, i: nat, o: set<nat>, next: map<string, nat>)
      requires i <= |g.windows| && DistinctIDs(g)
      reads this
    {
      table == Extend(t, g, i) && next == Named(t.next, g, i) && owned == o + next.Values
    }

    /** Retain one more window, or give back those retained so far. */
    method RetainNext(g: Group, i: nat, sofar: map<string, nat>, ghost t: Table, ghost o: set<nat>) returns (ok: bool, next: map<string, nat>)
      requires TableOk(t) && GroupOk(t, g) && i < |g.windows| && (forall l <- o :: l < t.next) && Retaining(t, g, i, o, sofar)
      modifies this`table, this`owned
      ensures ok <==> |On(t.held, g.windows[i].frame)| < MAX_LEASES
      ensures ok ==> Retaining(t, g, i + 1, o, next)
      ensures !ok ==> table.held == t.held && table.members == t.members && table.next >= t.next && owned == o
    {
      ExtendLeavesRoom(t, g, i);
      NextWindow(t, g, i);
      UndoWindows(t, g, i, o);
      next := sofar;
      var l := RetainFrame(g.windows[i].frame);
      ok := l.Some?;
      if ok {
        next := next[g.windows[i].desc.id := l.value];
      } else {
        ReleaseFrames(next);
      }
    }

    /** Retain every window of a group, or undo and report failure: the live leases are then exactly as before. */
    method RetainAll(g: Group) returns (ok: bool, next: map<string, nat>)
      requires TableOk(table) && GroupOk(table, g) && forall l <- owned :: l < table.next
      modifies this`table, this`owned
      ensures ok <==> Room(old(table), g)
      ensures !ok ==> table.held == old(table.held) && table.members == old(table.members) && table.next >= old(table.next) && owned == old(owned)
      ensures ok ==> Retaining(old(table), g, |g.windows|, old(owned), next)
    {
      next := map[];
      ExtendNone(table, g);
      ghost var t, o := table, owned;
      for i := 0 to |g.windows|
        invariant Retaining(t, g, i, o, next)
        invariant forall j | 0 <= j < i :: |On(t.held, g.windows[j].frame)| < MAX_LEASES
      {
        ok, next := RetainNext(g, i, next, t, o);
        if !ok { return; }
      }
      ok := true;
    }

    /** Replace what is published by the complete window set of g, or leave it when a window cannot be retained. */
    method Publish(g: Group, frame: nat) returns (ok: bool)
      requires TableOk(table) && GroupOk(table, g) && FrameLeasesOk(table, published) && forall l <- owned :: l < table.next
      modifies this`table, this`owned, this`published, this`lastReady, this`shown
      ensures ok <==> Room(old(table), g)
      ensures !ok ==> published == old(published) && lastReady == old(lastReady) && shown == old(shown) && owned == old(owned)
      ensures !ok ==> table.held == old(table.held) && table.members == old(table.members) && table.next >= old(table.next)
      ensures ok ==> published == Named(old(table.next), g, |g.windows|) && lastReady == frame && shown == Some(g)
      ensures ok ==> table == Published(old(table), old(published), g) && owned == old(owned) + published.Values - old(published).Values
    {
      var next: map<string, nat>;
      ok, next := RetainAll(g);
      if ok {
        OldLeasesStay(old(table), published, g);
        ReleaseFrames(published);
        published := next;
        lastReady := frame;
        shown := Some(g);
      }
    }

    /** A ready completion publishes its group if the checks pass and every window's frame has room for one more lease. */
    method TryPublish(c: Completion) returns (ready: bool)
      requires Valid() && c.frame in pending && |c.windows| == MAX_WINDOWS
      modifies this`table, this`owned, this`published, this`lastReady, this`shown
      ensures Valid()
      ensures ready <==> c.ready && !c.failed && !old(Stale(c, pending[c.frame])) && old(Room(table, pending[c.frame]))
      ensures !ready ==> table.held == old(table.held) && table.members == old(table.members)
      ensures !ready ==> published == old(published) && lastReady == old(lastReady) && shown == old(shown)
      ensures ready ==> lastReady == c.frame >= old(lastReady)
      ensures ready ==> shown == Some(pending[c.frame]) && table == old(Published(table, published, pending[c.frame]))
      ensures ready ==> published == old(Named(table.next, pending[c.frame], |pending[c.frame].windows|))
    {
      var g := pending[c.frame];
      ready := false;
      if c.ready && !c.failed {
        var admissible := Admissible(c, g);
        if admissible {
          ready := Publish(g, c.frame);
          if ready {
            PublishKeepsPending(old(table), pending, old(published), g);
            PublishShows(old(table), old(published), g);
            Swapped(old(table), pending, old(published), g);
          } else {
            NumberedHigher(old(table), table, owned);
            OthersKeepFrom(old(table), table);
          }
        }
      }
    }

    lemma OthersKeepFrom(t: Table, u: Table)
      requires TableOk(t) && PendingOk(t, pending) && PublishedOk(t, published, shown) && owned == HeldBy(pending, published) && Evolves(t, u, owned)
      ensures TableOk(u) && PendingOk(u, pending) && PublishedOk(u, published, shown)
    {
      PendingEvolves(t, u, pending, owned);
      PublishedEvolves(t, u, published, shown, owned);
    }

    /** Drop the runtime's lease on a pending group. */
    method Consume(frame: nat)
      requires Valid() && frame in pending
      modifies this`table, this`pending, this`owned
      ensures Valid() && pending == old(pending) - {frame} && table == Released(old(table), old(pending)[frame].lease)
      ensures owned == HeldBy(old(pending) - {frame}, published)
    {
      ConsumeKeeps(table, pending, published, shown, frame);
      LeasesWithout(pending, frame);
      var l := pending[frame].lease;
      assert l !in published.Values;
      ReleaseLease(l);
      owned := owned - {l};
      pending := pending - {frame};
    }

    /**
     * A completion for an unknown frame or another generation changes nothing. Otherwise the pending group is
     * consumed, and either its complete window set is published or what was published stays. No path leaks a lease.
     */
    method CompleteFrameView(c: Completion) returns (ready: bool, handled: bool)
      requires Valid() && |c.windows| == MAX_WINDOWS
      modifies this`table, this`owned, this`published, this`lastReady, this`shown, this`pending
      ensures Valid()
      ensures handled <==> old(c.frame in pending && c.resource != 0 && pending[c.frame].windows[0].desc.resource == c.resource)
      ensures !handled ==> !ready && table == old(table) && pending == old(pending) && owned == old(owned)
      ensures !ready ==> published == old(published) && lastReady == old(lastReady) && shown == old(shown)
      ensures handled ==> pending == old(pending) - {c.frame}
      ensures lastReady >= old(lastReady)
      ensures ready <==> handled && c.ready && !c.failed && !old(Stale(c, pending[c.frame])) && old(Room(table, pending[c.frame]))
      ensures ready <==> handled && c.ready && !c.failed && old(Publishable(c, pending[c.frame]))
      ensures ready ==> lastReady == c.frame && shown == Some(old(pending)[c.frame]) && published.Keys == IDs(old(pending)[c.frame])
      ensures handled ==> Conserved(old(table.held), old(table.members), old(HeldBy(pending, published)), table.held, HeldBy(pending, published))
    {
      if c.frame !in pending { return false, false; }
      if c.resource == 0 || pending[c.frame].windows[0].desc.resource != c.resource { return false, false; }
      PublishableMeans(c, pending[c.frame]);
      ready := TryPublish(c);
      if ready {
        ReadyConserves(old(table), old(pending), old(published), old(shown), c.frame);
        PublishShows(old(table), old(published), old(pending)[c.frame]);
      } else {
        ReleaseConserves(table, pending, published, shown, c.frame);
      }
      Consume(c.frame);
      handled := true;
    }

    /** Drop one pending group on the way to releasing everything. */
    method ConsumeOne(f: nat, ghost held: map<nat, nat>, ghost mine: set<nat>)
      requires Valid() && f in pending
      requires Draining(held, mine, table, owned)
      modifies this`table, this`pending, this`owned
      ensures Valid() && pending.Keys == old(pending).Keys - {f} && table.members == old(table.members)
      ensures Draining(held, mine, table, owned)
    {
      ConsumeConserves(held, mine, table, pending, published, shown, f);
      Consume(f);
    }

    method ConsumeAll(ghost held: map<nat, nat>, ghost mine: set<nat>)
      requires Valid()
      requires Draining(held, mine, table, owned)
      modifies this`table, this`pending, this`owned
      ensures Valid() && pending.Keys == {} && table.members == old(table.members)
      ensures Draining(held, mine, table, owned)
    {
      var todo := pending.Keys;
      while todo != {}
        invariant Valid() && pending.Keys == todo && table.members == old(table.members)
        invariant Draining(held, mine, table, owned)
        decreases todo
      {
        var f :| f in todo;
        ConsumeOne(f, held, mine);
        todo := todo - {f};
      }
    }

    method Unpublish()
      requires Valid() && pending == map[]
      modifies this`table, this`published, this`owned
      ensures Valid() && published == map[] && owned == {} && table == old(table).(held := old(table.held) - old(published).Values)
    {
      DropFrames(table, published.Values, {});
      assert owned == published.Values;
      ReleaseFrames(published);
      published := map[];
    }

    /** releaseFrameViews: every lease of the runtime is given back, and no one else's. */
    method ReleaseFrameViews()
      requires Valid()
      modifies this`table, this`pending, this`published, this`owned
      ensures Valid() && pending == map[] && published == map[] && owned == {}
      ensures Conserved(old(table.held), old(table.members), old(HeldBy(pending, published)), table.held, {})
    {
      NothingYet(table, pending, published, shown);
      ghost var held, mine := table.held, owned;
      ConsumeAll(held, mine);
      assert pending == map[];
      UnpublishConserves(table, published);
      assert owned == HeldBy(map[], published);
      ConservedChain(held, table.members, mine, table.held, owned, table.held - published.Values, {});
      Unpublish();
    }
  }

  /** On the way from `held` to t only leases of `mine` have been given back. */
  ghost predicate Draining(held: map<nat, nat>, mine: set<nat>, t: Table, owned: set<nat>) {
    Conserved(held, t.members, mine, t.held, owned) && owned <= mine
  }

  lemma ConsumeConserves(held: map<nat, nat>, mine: set<nat>, t: Table, pending: map<nat, Group>, published: map<string, nat>, shown: Option<Group>, f: nat)
    requires TableOk(t) && PendingOk(t, pending) && PublishedOk(t, published, shown) && f in pending
    requires Draining(held, mine, t, HeldBy(pending, published))
    ensures Draining(held, mine, Released(t, pending[f].lease), HeldBy(pending - {f}, published))
  {
    ReleaseConserves(t, pending, published, shown, f);
    ConservedChain(held, t.members, mine, t.held, HeldBy(pending, published), Released(t, pending[f].lease).held, HeldBy(pending - {f}, published));
  }

  /** The runtime's leases after a publication: the pending groups and the new windows. */
  lemma Swapped(t: Table, pending: map<nat, Group>, published: map<string, nat>, g: Group)
    requires TableOk(t) && PendingOk(t, pending) && FrameLeasesOk(t, published) && DistinctIDs(g)
    ensures var n := Named(t.next, g, |g.windows|); HeldBy(pending, published) + n.Values - published.Values == HeldBy(pending, n)
  {
    NamedValues(t.next, g, |g.windows|);
    assert GroupLeases(pending) !! published.Values;
    assert forall l <- published.Values :: l in t.held;
  }

  lemma NumberedHigher(t: Table, u: Table, mine: set<nat>)
    requires TableOk(t) && u.held == t.held && u.members == t.members && u.next >= t.next
    ensures Evolves(t, u, mine)
  {
    forall l | l in u.held && u.held[l] in u.members ensures MembersLive(u, u.held[l]) {
      assert MembersLive(t, t.held[l]);
    }
  }

  lemma SubmitKeeps(t: Table, pending: map<nat, Group>, published: map<string, nat>, shown: Option<Group>, g: Group, n: nat)
    requires TableOk(t) && PendingOk(t, pending) && PublishedOk(t, published, shown) && n !in pending
    requires GroupOk(t, g) && Free(t, g.lease) && g.lease !in HeldBy(pending, published)
    ensures
      var u, view := Retained(t, g.storage), g.(lease := t.next);
      && TableOk(u) && PendingOk(u, pending[n := view]) && PublishedOk(u, published, shown) && Free(u, g.lease)
      && HeldBy(pending[n := view], published) == HeldBy(pending, published) + {t.next} && t.next !in HeldBy(pending, published)
  {
    var u, view, mine := Retained(t, g.storage), g.(lease := t.next), HeldBy(pending, published) + {g.lease};
    assert g.lease in On(t.held, g.storage);
    RetainKeeps(t, g.storage, mine);
    PendingEvolves(t, u, pending, mine);
    PublishedEvolves(t, u, published, shown, mine);
    GroupEvolves(t, u, g, mine);
    LeasesWith(pending, n, view);
  }

  // ----- a run that publishes -----

  const PRIMARY_WINDOW := Window(Descriptor(PRIMARY, 0, 9), 0)
  const SEALED := Group(3, 2, [PRIMARY_WINDOW])
  const VIEW := Group(4, 2, [PRIMARY_WINDOW])
  /** One frame, one group that owns its lease; then the runtime's lease on the group. */
  const GROUPED := Table(map[1 := 0, 3 := 2], map[2 := [1]], 4)
  const SUBMITTED := Table(map[1 := 0, 3 := 2, 4 := 2], map[2 := [1]], 5)
  const DONE := Completion(1, 9, true, false, 1, [(PRIMARY_WINDOW.desc, true)] + seq(7, _ => (PRIMARY_WINDOW.desc, false)))

  lemma GroupedFacts()
    ensures Grouped(Sealed(Table(map[], map[], 0)), [1]) == GROUPED && Groupable(Sealed(Table(map[], map[], 0)), [1])
    ensures GroupOk(GROUPED, SEALED) && Free(GROUPED, 3) && |On(GROUPED.held, 2)| == 1
  {
    assert On(GROUPED.held, 2) == {3};
  }

  lemma SubmittedFacts()
    ensures Retained(GROUPED, 2) == SUBMITTED && Room(SUBMITTED, VIEW) && IDs(VIEW) == {PRIMARY}
  {
    assert On(SUBMITTED.held, 0) == {1};
    assert VIEW.windows[0] == PRIMARY_WINDOW && PRIMARY_WINDOW in VIEW.windows;
  }

  /** A frame is sealed and grouped. */
  method GroupingRun() returns (rt: Runtime)
    ensures fresh(rt) && rt.Valid() && rt.table == GROUPED && rt.owned == {}
    ensures rt.pending == map[] && rt.frameNumber == 0 && rt.lastReady == 0 && rt.surface == 0
  {
    GroupedFacts();
    rt := new Runtime(Table(map[], map[], 0));
    var lease := rt.OtherSeals();
    var first := rt.OtherGroups([lease]);
  }

  /** The group is submitted. */
  method SubmittingRun() returns (rt: Runtime)
    ensures fresh(rt) && rt.Valid() && rt.pending == map[1 := VIEW] && rt.table == SUBMITTED && rt.lastReady == 0 && rt.surface == 0
  {
    rt := GroupingRun();
    SubmitSealed(rt);
  }

  method SubmitSealed(rt: Runtime)
    requires rt.Valid() && rt.table == GROUPED && rt.owned == {} && rt.pending == map[] && rt.frameNumber == 0
    modifies rt`table, rt`pending, rt`frameNumber, rt`owned
    ensures rt.Valid() && rt.pending == map[1 := VIEW] && rt.table == SUBMITTED
  {
    GroupedFacts();
    SubmittedFacts();
    var ok := rt.Submit(SEALED);
  }

  /** Its completion arrives and the complete window set is published. */
  method PublishingRun() returns (rt: Runtime)
    ensures rt.Valid() && rt.lastReady == 1 && rt.published.Keys == {PRIMARY} && rt.pending == map[]
  {
    SubmittedFacts();
    rt := SubmittingRun();
    assert !rt.Stale(DONE, VIEW);
    var ready, handled := rt.CompleteFrameView(DONE);
  }
}
