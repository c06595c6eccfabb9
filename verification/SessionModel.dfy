/** The lifecycle of one resumable session (drive/session.go) and its generation fence over every run. */
module SessionModel {
  import opened Machine

  const RECOVERY_TTL := 600_000_000_000 // ten minutes in nanoseconds

  datatype State = Attached | Detached | Expired
  datatype Lifecycle = Lifecycle(state: State, generation: nat, detachedAt: Option<int>)

  datatype Op =
    | Attach
    | Detach(now: int)
    | DetachGeneration(generation: nat, at: int)
    | WithAttachedGeneration(generation: nat)
    | Expire

  const NEW := Lifecycle(Attached, 1, None)

  /** Whether the operation reports success; only the fenced operations and Attach can fail. */
  predicate Succeeds(s: Lifecycle, op: Op) {
    match op
    case Attach => s.state != Expired
    case DetachGeneration(g, _) => s.state == Attached && s.generation == g
    case WithAttachedGeneration(g) => s.state == Attached && s.generation == g
    case _ => true
  }

  function Apply(s: Lifecycle, op: Op): Lifecycle
    requires s.generation <= MAX64
  {
    match op
    case Attach => if s.state == Expired then s else Lifecycle(Attached, Inc64(s.generation), None)
    case Detach(now) => if s.state == Attached then s.(state := Detached, detachedAt := Some(now)) else s
    case DetachGeneration(g, now) =>
      if s.state == Attached && s.generation == g then s.(state := Detached, detachedAt := Some(now)) else s
    case WithAttachedGeneration(_) => s
    case Expire => s.(state := Expired)
  }

  /** A detached session's recovery time has run out. The zero time stands for "never detached". */
  predicate ExpiredDue(s: Lifecycle, now: int) {
    s.state == Detached && (s.detachedAt.None? || now - s.detachedAt.value >= RECOVERY_TTL)
  }

  function Run(s: Lifecycle, ops: seq<Op>): (r: Lifecycle)
    requires s.generation + |ops| <= MAX64
    ensures s.generation <= r.generation <= s.generation + |ops|
    decreases |ops|
  {
    if ops == [] then s else Run(Apply(s, ops[0]), ops[1..])
  }

  /** The generation was replaced, or was the current one and is no longer attached. */
  predicate Fenced(s: Lifecycle, g: nat) {
    g < s.generation || (g == s.generation && s.state != Attached)
  }

  /** Once fenced, a generation stays fenced and no later operation carrying it succeeds, in any run. */
  lemma {:induction false} FencedForever(s: Lifecycle, ops: seq<Op>, g: nat, last: Op)
    requires s.generation + |ops| <= MAX64 && Fenced(s, g)
    requires last.DetachGeneration? || last.WithAttachedGeneration?
    requires last.generation == g
    ensures Fenced(Run(s, ops), g) && !Succeeds(Run(s, ops), last) && Apply(Run(s, ops), last) == Run(s, ops)
    decreases |ops|
  {
    if ops != [] {
      FencedForever(Apply(s, ops[0]), ops[1..], g, last);
    }
  }

  /** Every way of losing a connection fences it: a successful resume, a detach, or expiry. */
  lemma LossFences(s: Lifecycle, op: Op)
    requires s.generation < MAX64 && s.state == Attached
    requires op.Attach? || op.Detach? || op.Expire? || (op.DetachGeneration? && op.generation == s.generation)
    ensures Fenced(Apply(s, op), s.generation)
    ensures op.Attach? ==> Apply(s, op).generation == s.generation + 1 && !Fenced(Apply(s, op), s.generation + 1)
  {}

  lemma {:induction false} RunConcat(s: Lifecycle, a: seq<Op>, b: seq<Op>)
    requires s.generation + |a| + |b| <= MAX64
    ensures Run(s, a + b) == Run(Run(s, a), b)
    decreases |a|
  {
    if a == [] {
      assert a + b == b;
    } else {
      assert (a + b)[0] == a[0] && (a + b)[1..] == a[1..] + b;
      RunConcat(Apply(s, a[0]), a[1..], b);
    }
  }

  /** Each successful attachment of a run gets a strictly larger generation than any connection before it, and fences them all. */
  lemma AttachmentsIncrease(s: Lifecycle, before: seq<Op>, between: seq<Op>)
    requires s.generation + |before| + |between| + 1 <= MAX64
    ensures
      var first := Run(s, before);
      var second := Run(s, before + between);
      Succeeds(second, Attach) ==>
        && Apply(second, Attach).generation > first.generation
        && Fenced(Apply(second, Attach), first.generation)
  {
    RunConcat(s, before, between);
  }

  /** Expiry is absorbing: nothing revives an expired session and nothing it is asked succeeds. */
  lemma {:induction false} ExpiredIsAbsorbing(s: Lifecycle, ops: seq<Op>, op: Op)
    requires s.generation + |ops| <= MAX64 && s.state == Expired
    requires op.Attach? || op.DetachGeneration? || op.WithAttachedGeneration?
    ensures Run(s, ops) == s && !Succeeds(Run(s, ops), op)
    decreases |ops|
  {
    if ops != [] {
      ExpiredIsAbsorbing(Apply(s, ops[0]), ops[1..], op);
    }
  }

  /** Operations that do not take the connection of generation g away. */
  predicate Harmless(op: Op, g: nat) {
    op.WithAttachedGeneration? || (op.DetachGeneration? && op.generation != g)
  }

  /**
   * The attached current generation succeeds, and goes on succeeding through every run that holds no attach, detach
   * or expiry and no detach of that very generation.
   */
  lemma {:induction false} CurrentSucceeds(s: Lifecycle, ops: seq<Op>, at: int)
    requires s.generation + |ops| <= MAX64 && s.state == Attached
    requires forall i | 0 <= i < |ops| :: Harmless(ops[i], s.generation)
    ensures Run(s, ops) == s
    ensures Succeeds(Run(s, ops), WithAttachedGeneration(s.generation)) && Succeeds(Run(s, ops), DetachGeneration(s.generation, at))
    decreases |ops|
  {
    if ops != [] {
      CurrentSucceeds(Apply(s, ops[0]), ops[1..], at);
    }
  }

  /** The connection a successful attach hands out works until it is lost, whatever happened before. */
  lemma AttachedWorks(s: Lifecycle, before: seq<Op>, after: seq<Op>)
    requires s.generation + |before| + |after| + 1 <= MAX64 && Run(s, before).state != Expired
    requires forall i | 0 <= i < |after| :: Harmless(after[i], Run(s, before).generation + 1)
    ensures
      var attached := Apply(Run(s, before), Attach);
      && attached.state == Attached && attached.generation == Run(s, before).generation + 1 && attached.detachedAt == None
      && Succeeds(Run(attached, after), WithAttachedGeneration(attached.generation))
  {
    CurrentSucceeds(Apply(Run(s, before), Attach), after, 0);
  }

  /**
   * A detached session resumes under the next generation at any time; its recovery runs out exactly ten minutes
   * after the moment it was detached at.
   */
  lemma DetachThenResume(s: Lifecycle, g: nat, at: int, now: int)
    requires s.generation < MAX64 && s.state == Attached && g == s.generation
    ensures
      var gone := Apply(s, DetachGeneration(g, at));
      && gone == Apply(s, Detach(at)) && gone.state == Detached && gone.generation == g
      && (ExpiredDue(gone, now) <==> now >= at + 600_000_000_000)
      && Succeeds(gone, Attach) && Apply(gone, Attach).state == Attached && Apply(gone, Attach).generation == g + 1
      && !ExpiredDue(Apply(gone, Attach), now)
  {}
}
