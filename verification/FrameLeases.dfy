/**
 * Reference-counted leases on frames and frame groups (render/frame_pages.go, render/frame_group.go)
 * as an interleaved step relation. Retain is a check, a load and a compare-and-swap; Release is a
 * flag compare-and-swap, a decrement and, for the thread that reached zero, a cleanup in stages.
 */
module FrameLeases {

  const MAX_LEASES := 8
  const MAX_WINDOWS := 8
  /** Clearing a frame: drop its pages, retire its reservation, acknowledge it. */
  const FRAME_STAGES := 3

  datatype Phase = Held | Dropping | Freed
  datatype Lease = Lease(storage: nat, phase: Phase)

  /**
   * A frame or group generation. A group owns one frame lease per window. `cleanups` counts the
   * threads that saw the count reach zero; `stage` counts the cleanup actions performed.
   */
  datatype Storage = Frame(refs: int, cleanups: nat, stage: nat) | Group(refs: int, cleanups: nat, stage: nat, members: seq<nat>)

  /** A thread inside Retain: it passed the released check and may have loaded the count. */
  datatype Attempt = Checked(storage: nat) | Loaded(storage: nat, refs: int)

  datatype System = System(storages: map<nat, Storage>, leases: map<nat, Lease>, attempts: map<nat, Attempt>)

  datatype Step =
    | SealFrame(storage: nat, lease: nat)
    | TakeGroup(storage: nat, lease: nat, members: seq<nat>)
    | RetainCheck(thread: nat, lease: nat)
    | RetainLoad(thread: nat)
    | RetainSwap(thread: nat, lease: nat)
    | ReleaseFlag(lease: nat)
    | ReleaseDecrement(lease: nat)
    | Cleanup(storage: nat)

  const START := System(map[], map[], map[])

  predicate Owned(s: System, l: nat) {
    exists g <- s.storages :: s.storages[g].Group? && l in s.storages[g].members
  }

  function Stages(st: Storage): nat {
    if st.Frame? then FRAME_STAGES else |st.members|
  }

  /** Client code may flag only leases it owns itself; a group's member leases are flagged by its cleanup. */
  ghost predicate Enabled(s: System, step: Step) {
    match step
    case SealFrame(st, l) => st !in s.storages && l !in s.leases
    case TakeGroup(st, l, members) =>
      && st !in s.storages && l !in s.leases && 0 < |members| <= MAX_WINDOWS
      && (forall i | 0 <= i < |members| :: members[i] in s.leases && s.leases[members[i]].phase == Held && !Owned(s, members[i]))
      && (forall i, j | 0 <= i < j < |members| :: members[i] != members[j])
    case RetainCheck(t, l) => t !in s.attempts && l in s.leases && s.leases[l].phase == Held
    case RetainLoad(t) => t in s.attempts && s.attempts[t].Checked? && s.attempts[t].storage in s.storages
    case RetainSwap(t, l) => t in s.attempts && s.attempts[t].Loaded? && s.attempts[t].storage in s.storages && l !in s.leases
    case ReleaseFlag(l) => l in s.leases && s.leases[l].phase == Held && !Owned(s, l)
    case ReleaseDecrement(l) => l in s.leases && s.leases[l].phase == Dropping && s.leases[l].storage in s.storages
    case Cleanup(st) => st in s.storages && s.storages[st].cleanups > 0 && s.storages[st].stage < Stages(s.storages[st])
  }

  function Bump(st: Storage, delta: int): Storage {
    var refs := st.refs + delta;
    var cleanups := if delta < 0 && refs == 0 then st.cleanups + 1 else st.cleanups;
    st.(refs := refs, cleanups := cleanups)
  }

  function Swap(s: System, t: nat, l: nat): System
    requires t in s.attempts && s.attempts[t].Loaded? && s.attempts[t].storage in s.storages
  {
    var Loaded(st, seen) := s.attempts[t];
    if seen <= 0 || seen >= MAX_LEASES then s.(attempts := s.attempts - {t}) // refused
    else if s.storages[st].refs == seen then
      s.(storages := s.storages[st := Bump(s.storages[st], 1)], leases := s.leases[l := Lease(st, Held)], attempts := s.attempts - {t})
    else s.(attempts := s.attempts[t := Checked(st)]) // lost the race: reload
  }

  function CleanupStep(s: System, st: nat): System
    requires st in s.storages && s.storages[st].stage < Stages(s.storages[st])
  {
    var x := s.storages[st];
    var s' := s.(storages := s.storages[st := x.(stage := x.stage + 1)]);
    if x.Group? && x.members[x.stage] in s.leases && s.leases[x.members[x.stage]].phase == Held
    then s'.(leases := s.leases[x.members[x.stage] := s.leases[x.members[x.stage]].(phase := Dropping)])
    else s'
  }

  ghost function Apply(s: System, step: Step): System
    requires Enabled(s, step)
  {
    match step
    case SealFrame(st, l) => s.(storages := s.storages[st := Frame(1, 0, 0)], leases := s.leases[l := Lease(st, Held)])
    case TakeGroup(st, l, members) =>
      s.(storages := s.storages[st := Group(1, 0, 0, members)], leases := s.leases[l := Lease(st, Held)])
    case RetainCheck(t, l) => s.(attempts := s.attempts[t := Checked(s.leases[l].storage)])
    case RetainLoad(t) =>
      var st := s.attempts[t].storage;
      s.(attempts := s.attempts[t := Loaded(st, s.storages[st].refs)])
    case RetainSwap(t, l) => Swap(s, t, l)
    case ReleaseFlag(l) => s.(leases := s.leases[l := s.leases[l].(phase := Dropping)])
    case ReleaseDecrement(l) =>
      var st := s.leases[l].storage;
      s.(storages := s.storages[st := Bump(s.storages[st], -1)], leases := s.leases[l := s.leases[l].(phase := Freed)])
    case Cleanup(st) => CleanupStep(s, st)
  }

  // ----- invariant -----

  /** The leases counted in a storage's reference count: held, or flagged with the decrement still to come. */
  ghost function Counted(leases: map<nat, Lease>, st: nat): set<nat> {
    set l | l in leases && leases[l].storage == st && leases[l].phase != Freed
  }

  ghost predicate StorageOk(x: Storage, leases: map<nat, Lease>, st: nat) {
    && x.refs == |Counted(leases, st)|
    && 0 <= x.refs <= MAX_LEASES
    && x.cleanups == (if x.refs == 0 then 1 else 0)
    && x.stage <= Stages(x)
    && (x.stage > 0 ==> x.cleanups == 1)
  }

  /** A group's member leases are held until its cleanup reaches them, then flagged one by one. */
  ghost predicate MembersOk(x: Storage, leases: map<nat, Lease>)
    requires x.Group?
  {
    && (forall i | 0 <= i < |x.members| :: x.members[i] in leases && (leases[x.members[i]].phase == Held <==> i >= x.stage))
    && (forall i, j | 0 <= i < j < |x.members| :: x.members[i] != x.members[j])
  }

  /** No lease belongs to two groups. */
  ghost predicate Exclusive(storages: map<nat, Storage>) {
    forall g, h, l | g in storages && h in storages && g != h && storages[g].Group? && storages[h].Group? && l in storages[g].members :: l !in storages[h].members
  }

  ghost predicate Counts(storages: map<nat, Storage>, leases: map<nat, Lease>) {
    forall st <- storages :: StorageOk(storages[st], leases, st)
  }

  ghost predicate Groups(storages: map<nat, Storage>, leases: map<nat, Lease>) {
    forall g <- storages :: storages[g].Group? ==> MembersOk(storages[g], leases)
  }

  ghost predicate Inv(s: System) {
    && (forall l <- s.leases :: s.leases[l].storage in s.storages)
    && Counts(s.storages, s.leases)
    && Groups(s.storages, s.leases)
    && Exclusive(s.storages)
    && (forall t <- s.attempts :: s.attempts[t].storage in s.storages)
  }

  // ----- counting -----

  lemma AddLease(storages: map<nat, Storage>, leases: map<nat, Lease>, st: nat, l: nat, x: Storage)
    requires Counts(storages, leases) && l !in leases && x.refs == |Counted(leases, st)| + 1
    requires 1 <= x.refs <= MAX_LEASES && x.cleanups == 0 && x.stage == 0
    ensures Counts(storages[st := x], leases[l := Lease(st, Held)])
  {
    var leases' := leases[l := Lease(st, Held)];
    forall k ensures Counted(leases', k) == if k == st then Counted(leases, k) + {l} else Counted(leases, k) {}
  }

  lemma DropLease(storages: map<nat, Storage>, leases: map<nat, Lease>, l: nat)
    requires Counts(storages, leases) && l in leases && leases[l].phase != Freed && leases[l].storage in storages
    ensures
      var st := leases[l].storage;
      Counts(storages[st := Bump(storages[st], -1)], leases[l := leases[l].(phase := Freed)])
  {
    var st, leases' := leases[l].storage, leases[l := leases[l].(phase := Freed)];
    forall k ensures Counted(leases', k) == if k == st then Counted(leases, k) - {l} else Counted(leases, k) {}
    assert l in Counted(leases, st);
    assert StorageOk(storages[st], leases, st);
  }

  lemma FlagLease(storages: map<nat, Storage>, leases: map<nat, Lease>, l: nat)
    requires Counts(storages, leases) && l in leases && leases[l].phase == Held
    ensures Counts(storages, leases[l := leases[l].(phase := Dropping)])
  {
    forall k ensures Counted(leases[l := leases[l].(phase := Dropping)], k) == Counted(leases, k) {}
  }

  lemma EmptyStorage(leases: map<nat, Lease>, storages: map<nat, Storage>, st: nat)
    requires st !in storages && forall l <- leases :: leases[l].storage in storages
    ensures Counted(leases, st) == {}
  {}

  // ----- each step keeps the invariant -----

  lemma SealKeeps(s: System, st: nat, l: nat)
    requires Inv(s) && Enabled(s, SealFrame(st, l))
    ensures Inv(Apply(s, SealFrame(st, l)))
  {
    EmptyStorage(s.leases, s.storages, st);
    AddLease(s.storages, s.leases, st, l, Frame(1, 0, 0));
  }

  lemma TakeKeeps(s: System, st: nat, l: nat, members: seq<nat>)
    requires Inv(s) && Enabled(s, TakeGroup(st, l, members))
    ensures Inv(Apply(s, TakeGroup(st, l, members)))
  {
    EmptyStorage(s.leases, s.storages, st);
    AddLease(s.storages, s.leases, st, l, Group(1, 0, 0, members));
    var s' := Apply(s, TakeGroup(st, l, members));
    assert Groups(s'.storages, s'.leases) by {
      forall g | g in s'.storages && s'.storages[g].Group? ensures MembersOk(s'.storages[g], s'.leases) {
        if g != st { assert MembersOk(s.storages[g], s.leases); }
      }
    }
    assert Exclusive(s'.storages) by {
      forall i | 0 <= i < |members| ensures !Owned(s, members[i]) {}
    }
  }

  lemma SwapKeeps(s: System, t: nat, l: nat)
    requires Inv(s) && Enabled(s, RetainSwap(t, l))
    ensures Inv(Apply(s, RetainSwap(t, l)))
  {
    var Loaded(st, seen) := s.attempts[t];
    if 0 < seen < MAX_LEASES && s.storages[st].refs == seen {
      assert StorageOk(s.storages[st], s.leases, st);
      AddLease(s.storages, s.leases, st, l, Bump(s.storages[st], 1));
      var s' := Swap(s, t, l);
      forall g | g in s'.storages && s'.storages[g].Group? ensures MembersOk(s'.storages[g], s'.leases) {
        assert MembersOk(s.storages[g], s.leases);
      }
    }
  }

  lemma FlagKeeps(s: System, l: nat)
    requires Inv(s) && Enabled(s, ReleaseFlag(l))
    ensures Inv(Apply(s, ReleaseFlag(l)))
  {
    FlagLease(s.storages, s.leases, l);
    var s' := Apply(s, ReleaseFlag(l));
    forall g | g in s'.storages && s'.storages[g].Group? ensures MembersOk(s'.storages[g], s'.leases) {
      assert MembersOk(s.storages[g], s.leases) && l !in s.storages[g].members;
    }
  }

  lemma DecrementKeeps(s: System, l: nat)
    requires Inv(s) && Enabled(s, ReleaseDecrement(l))
    ensures Inv(Apply(s, ReleaseDecrement(l)))
  {
    DropLease(s.storages, s.leases, l);
    var s' := Apply(s, ReleaseDecrement(l));
    forall g | g in s'.storages && s'.storages[g].Group? ensures MembersOk(s'.storages[g], s'.leases) {
      assert MembersOk(s.storages[g], s.leases);
    }
  }

  /** Cleaning one group flags its next member and leaves every other group's members as they were. */
  lemma CleanupGroups(storages: map<nat, Storage>, leases: map<nat, Lease>, st: nat)
    requires Groups(storages, leases) && Exclusive(storages) && st in storages && storages[st].Group?
    requires storages[st].stage < |storages[st].members|
    ensures
      var x := storages[st];
      var m := x.members[x.stage];
      m in leases && leases[m].phase == Held &&
      Groups(storages[st := x.(stage := x.stage + 1)], leases[m := leases[m].(phase := Dropping)])
  {
    var x := storages[st];
    assert MembersOk(x, leases);
    var m := x.members[x.stage];
    var storages', leases' := storages[st := x.(stage := x.stage + 1)], leases[m := leases[m].(phase := Dropping)];
    assert MembersOk(storages'[st], leases');
    forall g | g in storages && g != st && storages[g].Group? ensures MembersOk(storages'[g], leases') {
      assert MembersOk(storages[g], leases) && m !in storages[g].members;
    }
  }

  lemma CleanupCounts(storages: map<nat, Storage>, leases: map<nat, Lease>, st: nat)
    requires Counts(storages, leases) && st in storages && storages[st].cleanups > 0 && storages[st].stage < Stages(storages[st])
    ensures Counts(storages[st := storages[st].(stage := storages[st].stage + 1)], leases)
  {
    assert StorageOk(storages[st], leases, st);
  }

  lemma CleanupKeeps(s: System, st: nat)
    requires Inv(s) && Enabled(s, Cleanup(st))
    ensures Inv(Apply(s, Cleanup(st)))
  {
    var x := s.storages[st];
    CleanupCounts(s.storages, s.leases, st);
    if x.Group? {
      CleanupGroups(s.storages, s.leases, st);
      FlagLease(s.storages[st := x.(stage := x.stage + 1)], s.leases, x.members[x.stage]);
    }
  }

  lemma StepKeeps(s: System, step: Step)
    requires Inv(s) && Enabled(s, step)
    ensures Inv(Apply(s, step))
  {
    match step
    case SealFrame(st, l) => SealKeeps(s, st, l);
    case TakeGroup(st, l, members) => TakeKeeps(s, st, l, members);
    case RetainCheck(t, l) =>
    case RetainLoad(t) =>
    case RetainSwap(t, l) => SwapKeeps(s, t, l);
    case ReleaseFlag(l) => FlagKeeps(s, l);
    case ReleaseDecrement(l) => DecrementKeeps(s, l);
    case Cleanup(st) => CleanupKeeps(s, st);
  }

  // ----- runs: every interleaving -----

  ghost predicate Possible(s: System, steps: seq<Step>)
    decreases |steps|
  {
    steps == [] || (Enabled(s, steps[0]) && Possible(Apply(s, steps[0]), steps[1..]))
  }

  ghost function Run(s: System, steps: seq<Step>): System
    requires Possible(s, steps)
    decreases |steps|
  {
    if steps == [] then s else Run(Apply(s, steps[0]), steps[1..])
  }

  lemma {:induction false} RunKeeps(s: System, steps: seq<Step>)
    requires Inv(s) && Possible(s, steps)
    ensures Inv(Run(s, steps))
    decreases |steps|
  {
    if steps != [] {
      StepKeeps(s, steps[0]);
      RunKeeps(Apply(s, steps[0]), steps[1..]);
    }
  }

  /**
   * Under every interleaving the count of each generation is its live leases plus decrements still to
   * come and at most 8; cleanup has been entered exactly once if the count is zero and never otherwise.
   */
  lemma CountIsExact(steps: seq<Step>, st: nat)
    requires Possible(START, steps) && st in Run(START, steps).storages
    ensures
      var s := Run(START, steps);
      var x := s.storages[st];
      && x.refs == |Counted(s.leases, st)|
      && 0 <= x.refs <= MAX_LEASES
      && x.cleanups == (if x.refs == 0 then 1 else 0)
  {
    RunKeeps(START, steps);
    var s := Run(START, steps);
    assert StorageOk(s.storages[st], s.leases, st);
  }

  /** While any lease on a generation is held its cleanup has not started; for a group every member frame is intact too. */
  lemma HeldMeansIntact(s: System, l: nat)
    requires Inv(s) && l in s.leases && s.leases[l].phase == Held
    ensures
      var x := s.storages[s.leases[l].storage];
      && x.refs > 0 && x.stage == 0
      && (x.Group? ==> forall m <- x.members ::
            (m in s.leases && s.leases[m].phase == Held && s.leases[m].storage in s.storages && s.storages[s.leases[m].storage].stage == 0))
  {
    var st := s.leases[l].storage;
    var x := s.storages[st];
    assert StorageOk(x, s.leases, st);
    assert l in Counted(s.leases, st);
    if x.Group? {
      assert MembersOk(x, s.leases);
      forall m | m in x.members
        ensures m in s.leases && s.leases[m].phase == Held && s.leases[m].storage in s.storages && s.storages[s.leases[m].storage].stage == 0
      {
        assert StorageOk(s.storages[s.leases[m].storage], s.leases, s.leases[m].storage);
        assert m in Counted(s.leases, s.leases[m].storage);
      }
    }
  }

  /** What one step may do to a generation whose count is zero: only its cleanup moves on. */
  lemma RetiredStep(s: System, step: Step, st: nat)
    requires Inv(s) && Enabled(s, step) && st in s.storages && s.storages[st].refs == 0
    ensures
      var s' := Apply(s, step);
      st in s'.storages && s'.storages[st].refs == 0 && s'.storages[st].stage >= s.storages[st].stage
  {
    assert StorageOk(s.storages[st], s.leases, st);
    assert Counted(s.leases, st) == {};
    forall l | l in s.leases && s.leases[l].storage == st ensures s.leases[l].phase == Freed {
      assert l !in Counted(s.leases, st);
    }
  }

  /** Once a generation's count reaches zero it never rises again, and no step repeats a cleanup action already done. */
  lemma {:induction false} NeverRevived(s: System, steps: seq<Step>, st: nat)
    requires Inv(s) && Possible(s, steps) && st in s.storages && s.storages[st].refs == 0
    ensures
      var s' := Run(s, steps);
      && st in s'.storages && s'.storages[st].refs == 0 && s'.storages[st].cleanups == 1
      && s.storages[st].stage <= s'.storages[st].stage <= Stages(s'.storages[st])
    decreases |steps|
  {
    if steps == [] {
      assert StorageOk(s.storages[st], s.leases, st);
    } else {
      StepKeeps(s, steps[0]);
      RetiredStep(s, steps[0], st);
      NeverRevived(Apply(s, steps[0]), steps[1..], st);
    }
  }
}
