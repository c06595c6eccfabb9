/**
 * What each atomic step of Retain, Release and cleanup does (render/frame_pages.go, render/frame_group.go), and what the
 * calls do when no other thread comes in between.
 */
module FrameLeaseLaws {
  import opened FrameLeases

  /** No other lease, generation or thread than these is different. */
  ghost predicate OnlyAt(s: System, s': System, st: nat, l: nat, t: nat) {
    && s'.storages - {st} == s.storages - {st} && s'.leases - {l} == s.leases - {l} && s'.attempts - {t} == s.attempts - {t}
  }

  /**
   * The compare-and-swap: with a usable count that is still current the thread gets its lease and the count is one
   * higher; with a usable count that is no longer current it goes back to loading; it gives up exactly on a count that
   * is not between 1 and 7.
   */
  lemma SwapLaw(s: System, t: nat, l: nat)
    requires Enabled(s, RetainSwap(t, l))
    ensures
      var st, seen := s.attempts[t].storage, s.attempts[t].refs;
      var s' := Apply(s, RetainSwap(t, l));
      && OnlyAt(s, s', st, l, t) && st in s'.storages
      && (0 < seen < 8 && s.storages[st].refs == seen ==>
           (l in s'.leases && s'.leases[l] == Lease(st, Held) && s'.storages[st].refs == seen + 1 && t !in s'.attempts))
      && (0 < seen < 8 && s.storages[st].refs != seen ==>
           (l !in s'.leases && s'.storages == s.storages && t in s'.attempts && s'.attempts[t] == Checked(st)))
      && (seen <= 0 || seen >= 8 ==> s'.leases == s.leases && s'.storages == s.storages)
      && (l !in s'.leases && t !in s'.attempts <==> seen <= 0 || seen >= 8)
  {}

  /** A Retain through a held lease that nobody interrupts gets a lease unless 8 are counted already. */
  lemma UninterruptedRetain(s: System, t: nat, via: nat, l: nat)
    requires Inv(s) && t !in s.attempts && via in s.leases && s.leases[via].phase == Held && l !in s.leases
    ensures Possible(s, [RetainCheck(t, via)] + ([RetainLoad(t)] + [RetainSwap(t, l)]))
    ensures
      var st := s.leases[via].storage;
      var s' := Run(s, [RetainCheck(t, via)] + ([RetainLoad(t)] + [RetainSwap(t, l)]));
      && (l in s'.leases <==> |Counted(s.leases, st)| < 8) && t !in s'.attempts && st in s'.storages
      && (l in s'.leases ==> s'.leases == s.leases[l := Lease(st, Held)] && s'.storages[st].refs == s.storages[st].refs + 1)
  {
    var st := s.leases[via].storage;
    assert StorageOk(s.storages[st], s.leases, st) && via in Counted(s.leases, st);
    var s1 := Apply(s, RetainCheck(t, via));
    var s2 := Apply(s1, RetainLoad(t));
    ThreeSteps(s, RetainCheck(t, via), RetainLoad(t), RetainSwap(t, l));
    SwapLaw(s2, t, l);
  }

  lemma ThreeSteps(s: System, a: Step, b: Step, c: Step)
    requires Enabled(s, a) && Enabled(Apply(s, a), b) && Enabled(Apply(Apply(s, a), b), c)
    ensures Possible(s, [a] + ([b] + [c])) && Run(s, [a] + ([b] + [c])) == Apply(Apply(Apply(s, a), b), c)
  {
    TwoSteps(Apply(s, a), b, c);
    assert ([a] + ([b] + [c]))[1..] == [b] + [c];
  }

  lemma TwoSteps(s: System, a: Step, b: Step)
    requires Enabled(s, a) && Enabled(Apply(s, a), b)
    ensures Possible(s, [a] + [b]) && Run(s, [a] + [b]) == Apply(Apply(s, a), b)
  {
    assert ([a] + [b])[1..] == [b] && [b][1..] == [];
    var s1 := Apply(s, a);
    assert Possible(Apply(s1, b), []) && Run(Apply(s1, b), []) == Apply(s1, b);
  }

  /** Releasing flags the lease and then lowers the count by one; whoever lowers it to zero owes the cleanup. */
  lemma ReleaseLaw(s: System, l: nat)
    requires l in s.leases && s.leases[l].storage in s.storages
    ensures Enabled(s, ReleaseFlag(l)) ==> Apply(s, ReleaseFlag(l)) == s.(leases := s.leases[l := Lease(s.leases[l].storage, Dropping)])
    ensures Enabled(s, ReleaseDecrement(l)) ==>
      var st, s' := s.leases[l].storage, Apply(s, ReleaseDecrement(l));
      && OnlyAt(s, s', st, l, 0) && s'.attempts == s.attempts && s'.leases[l] == Lease(st, Freed)
      && s'.storages[st].refs == s.storages[st].refs - 1 && s'.storages[st].stage == s.storages[st].stage
      && s'.storages[st].cleanups == s.storages[st].cleanups + if s.storages[st].refs == 1 then 1 else 0
  {}

  /** A Release that nobody interrupts gives the lease up, and starts the cleanup exactly when it was the last one counted. */
  lemma UninterruptedRelease(s: System, l: nat)
    requires Inv(s) && Enabled(s, ReleaseFlag(l))
    ensures Possible(s, [ReleaseFlag(l)] + [ReleaseDecrement(l)])
    ensures
      var st, s' := s.leases[l].storage, Run(s, [ReleaseFlag(l)] + [ReleaseDecrement(l)]);
      && s'.leases == s.leases[l := Lease(st, Freed)] && st in s'.storages && s'.storages[st].refs == s.storages[st].refs - 1
      && (s'.storages[st].cleanups > 0 <==> Counted(s.leases, st) == {l})
  {
    var st := s.leases[l].storage;
    assert StorageOk(s.storages[st], s.leases, st) && l in Counted(s.leases, st);
    TwoSteps(s, ReleaseFlag(l), ReleaseDecrement(l));
    if |Counted(s.leases, st)| == 1 { Singleton(Counted(s.leases, st), l); }
  }

  lemma Singleton(a: set<nat>, l: nat)
    requires |a| == 1 && l in a
    ensures a == {l}
  {
    assert |a - {l}| == 0;
  }

  /** A new frame is counted by its first lease alone, and nothing else changes. */
  lemma SealLaw(s: System, st: nat, l: nat)
    requires Inv(s) && Enabled(s, SealFrame(st, l))
    ensures
      var s' := Apply(s, SealFrame(st, l));
      && OnlyAt(s, s', st, l, 0) && s'.attempts == s.attempts && Counted(s'.leases, st) == {l} && Enabled(s', ReleaseFlag(l))
      && st in s'.storages && s'.storages[st].Frame? && s'.storages[st].refs == 1
  {
    StepKeeps(s, SealFrame(st, l));
  }

  /** A new group is counted by its first lease alone and owns the member leases: they stay held, and their former holder can no longer release them. */
  lemma GroupLaw(s: System, st: nat, l: nat, members: seq<nat>)
    requires Inv(s) && Enabled(s, TakeGroup(st, l, members))
    ensures
      var s' := Apply(s, TakeGroup(st, l, members));
      && OnlyAt(s, s', st, l, 0) && s'.attempts == s.attempts && Counted(s'.leases, st) == {l}
      && st in s'.storages && s'.storages[st].Group? && s'.storages[st].refs == 1 && s'.storages[st].members == members
      && forall m <- members :: m in s'.leases && s'.leases[m].phase == Held && !Enabled(s', ReleaseFlag(m))
  {
    StepKeeps(s, TakeGroup(st, l, members));
  }

  // ----- cleanup -----

  /** n cleanup actions in a row. */
  function Cleanups(st: nat, n: nat): seq<Step> {
    if n == 0 then [] else [Cleanup(st)] + Cleanups(st, n - 1)
  }

  /** One action moves the cleanup one on; a group's action flags its next member lease for release. */
  lemma CleanupLaw(s: System, st: nat)
    requires Inv(s) && Enabled(s, Cleanup(st))
    ensures
      var s', x := Apply(s, Cleanup(st)), s.storages[st];
      && s'.storages == s.storages[st := x.(stage := x.stage + 1)] && s'.attempts == s.attempts
      && (x.Frame? ==> s'.leases == s.leases)
      && (x.Group? ==> x.members[x.stage] in s.leases && s'.leases == s.leases[x.members[x.stage] := s.leases[x.members[x.stage]].(phase := Dropping)])
  {
    if s.storages[st].Group? { assert MembersOk(s.storages[st], s.leases); }
  }

  lemma OneMoreCleanup(s: System, st: nat, n: nat)
    requires n > 0 && Enabled(s, Cleanup(st)) && Possible(Apply(s, Cleanup(st)), Cleanups(st, n - 1))
    ensures Possible(s, Cleanups(st, n)) && Run(s, Cleanups(st, n)) == Run(Apply(s, Cleanup(st)), Cleanups(st, n - 1))
  {
    assert Cleanups(st, n)[1..] == Cleanups(st, n - 1) && Cleanups(st, n)[0] == Cleanup(st);
  }

  /**
   * Once the count is zero the cleanup can always be run to its end: a frame's three actions, or one release per member
   * of a group, after which no member lease is held any more.
   */
  lemma {:induction false} CleanupCompletes(s: System, st: nat, n: nat)
    requires Inv(s) && st in s.storages && s.storages[st].refs == 0 && n == (if s.storages[st].Frame? then 3 else |s.storages[st].members|) - s.storages[st].stage
    ensures Possible(s, Cleanups(st, n))
    ensures
      var x := Run(s, Cleanups(st, n)).storages;
      && st in x && x[st] == s.storages[st].(stage := s.storages[st].stage + n)
      && (x[st].Group? ==> forall m <- x[st].members :: m in Run(s, Cleanups(st, n)).leases && Run(s, Cleanups(st, n)).leases[m].phase != Held)
    decreases n
  {
    assert StorageOk(s.storages[st], s.leases, st);
    if n > 0 {
      StepKeeps(s, Cleanup(st));
      CleanupLaw(s, st);
      CleanupCompletes(Apply(s, Cleanup(st)), st, n - 1);
      OneMoreCleanup(s, st, n);
    } else if s.storages[st].Group? {
      assert MembersOk(s.storages[st], s.leases);
    }
  }
}
