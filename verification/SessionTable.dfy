/** The mutable session objects and the table that owns them (drive/session.go). */
module Sessions {
  import opened Machine
  import opened SessionModel

  const MAX_SESSIONS := 32

  class Session {
    const id: string
    const credential: string // stands for the stored credential hash; verification is equality
    var state: State
    var generation: nat
    var detachedAt: Option<int>

    constructor (id: string, credential: string)
      ensures View() == NEW && this.id == id && this.credential == credential
    {
      this.id, this.credential := id, credential;
      state, generation, detachedAt := State.Attached, 1, None;
    }

    function View(): Lifecycle
      reads this
    {
      Lifecycle(state, generation, detachedAt)
    }

    method Attach() returns (ok: bool, gen: nat)
      requires generation <= MAX64
      modifies this
      ensures View() == Apply(old(View()), Op.Attach)
      ensures ok == Succeeds(old(View()), Op.Attach) && (ok ==> gen == generation)
    {
      if state == Expired { return false, 0; }
      if state == Attached { state := Detached; }
      generation := Inc64(generation);
      state := Attached;
      detachedAt := None;
      return true, generation;
    }

    method Detach(now: int)
      requires generation <= MAX64
      modifies this
      ensures View() == Apply(old(View()), Op.Detach(now))
    {
      if state == Attached {
        state := Detached;
        detachedAt := Some(now);
      }
    }

    method DetachGeneration(g: nat, now: int) returns (ok: bool)
      requires generation <= MAX64
      modifies this
      ensures View() == Apply(old(View()), Op.DetachGeneration(g, now))
      ensures ok == Succeeds(old(View()), Op.DetachGeneration(g, now))
    {
      if state != Attached || generation != g { return false; }
      state := Detached;
      detachedAt := Some(now);
      ok := true;
    }

    /**
     * The callback runs on the state W it guards exactly when the result is true. It holds the session's lock, so no
     * attach or detach comes in between, and the session itself is not changed.
     */
    method WithAttachedGeneration<W>(g: nat, fn: W -> W, w: W) returns (ran: bool, w': W)
      ensures ran == Succeeds(View(), Op.WithAttachedGeneration(g))
      ensures w' == if ran then fn(w) else w
    {
      if state != Attached || generation != g { return false, w; }
      return true, fn(w);
    }

    method Expire()
      requires generation <= MAX64
      modifies this`state
      ensures View() == Apply(old(View()), Op.Expire)
    {
      state := Expired;
    }
  }

  class SessionTable {
    var byID: map<string, Session>
    var expired: nat

    /** The table holds unexpired sessions under their own identifiers, never more than the limit. */
    ghost predicate Valid()
      reads this, byID.Values
    {
      && |byID| <= MAX_SESSIONS
      && forall id <- byID :: byID[id].id == id && byID[id].state != Expired && byID[id].generation <= MAX64
    }

    constructor ()
      ensures Valid() && byID == map[] && expired == 0
    {
      byID, expired := map[], 0;
    }

    /** `draw` is what the random source produced: an identifier and a credential, or a failure. */
    method Create(draw: Option<(string, string)>) returns (s: Session?)
      requires Valid()
      modifies this
      ensures Valid() && expired == old(expired)
      ensures s == null <==> |old(byID)| >= 32 || draw.None?
      ensures s == null ==> byID == old(byID)
      ensures s != null ==> fresh(s) && s.View() == NEW && byID == old(byID)[draw.value.0 := s]
    {
      s := null;
      if |byID| >= MAX_SESSIONS { return; }
      if draw.None? { return; }
      s := new Session(draw.value.0, draw.value.1);
      assert byID[s.id := s].Keys == byID.Keys + {s.id};
      byID := byID[s.id := s];
    }

    /** A resume proves the credential, refuses a session past its recovery time, and fences the old generation. */
    method Resume(id: string, credential: string, now: int) returns (s: Session?, gen: nat)
      requires Valid()
      modifies this, byID.Values
      ensures Valid()
      ensures forall k <- old(byID) :: k != id ==> k in byID && byID[k] == old(byID)[k] && byID[k].View() == old(byID[k].View())
      ensures s != null <==> old(id in byID && byID[id].credential == credential && !ExpiredDue(byID[id].View(), now))
      ensures s != null ==>
        && byID == old(byID) && s == byID[id] && gen == s.generation
        && s.View() == Apply(old(byID[id].View()), Op.Attach) && (old(byID[id].generation) < MAX64 ==> Fenced(s.View(), old(byID[id].generation)))
      ensures s == null && old(id in byID && byID[id].credential == credential) ==>
        byID == old(byID) - {id} && old(byID)[id].state == Expired && expired == old(expired) + 1
      ensures !(s == null && old(id in byID && byID[id].credential == credential)) ==> expired == old(expired)
      ensures !old(id in byID && byID[id].credential == credential) ==>
        byID == old(byID) && forall k <- byID :: byID[k].View() == old(byID[k].View())
    {
      s, gen := null, 0;
      if id !in byID { return; }
      var found := byID[id];
      if found.credential != credential { return; }
      if ExpiredDue(found.View(), now) {
        ExpireLocked(found);
        return;
      }
      var ok, g := found.Attach();
      s, gen := found, g;
    }

    method Revoke(id: string) returns (ok: bool)
      requires Valid()
      modifies this, byID.Values
      ensures Valid() && byID == old(byID) - {id}
      ensures ok == (id in old(byID)) && (ok ==> old(byID)[id].state == Expired) && expired == old(expired) + if ok then 1 else 0
      ensures forall k <- byID :: byID[k].View() == old(byID[k].View())
    {
      if id !in byID { return false; }
      ExpireLocked(byID[id]);
      ok := true;
    }

    ghost predicate Kept(s: Session, v: Lifecycle)
      reads this, s
    {
      s.id in byID && byID[s.id] == s && s.View() == v
    }

    ghost predicate Gone(s: Session)
      reads this, s
    {
      s.id !in byID && s.state == Expired
    }

    /** The sessions still to be visited are as they were; the others are gone if due and kept otherwise. */
    ghost predicate Swept(all: map<Session, Lifecycle>, todo: set<Session>, now: int)
      reads this, all.Keys
    {
      forall s <- all :: if s !in todo && ExpiredDue(all[s], now) then Gone(s) else Kept(s, all[s])
    }

    /** One session of a sweep: expired and removed if due, otherwise left alone; no other session changes. */
    method Visit(s: Session, now: int, ghost all: map<Session, Lifecycle>, ghost todo: set<Session>) returns (due: bool)
      requires Valid() && s in all && s in todo && Swept(all, todo, now)
      requires forall o <- all :: o != s ==> o.id != s.id
      modifies this, s
      ensures Valid() && byID.Keys <= old(byID).Keys && Swept(all, todo - {s}, now)
      ensures |byID| == |old(byID)| - (if due then 1 else 0) && expired == old(expired) + if due then 1 else 0
    {
      assert Kept(s, all[s]);
      due := ExpiredDue(s.View(), now);
      if due {
        ExpireLocked(s);
        forall o <- all | o != s ensures old(Kept(o, all[o])) ==> Kept(o, all[o]) {}
        forall o <- all | o != s ensures old(Gone(o)) ==> Gone(o) {}
      }
    }

    /** Sweep removes and expires exactly the sessions past their recovery time; the others are untouched. */
    method Sweep(now: int) returns (n: nat)
      requires Valid()
      modifies this, byID.Values
      ensures Valid() && byID.Keys <= old(byID).Keys && n == |old(byID)| - |byID| && expired == old(expired) + n
      ensures forall s <- old(byID.Values) :: if old(ExpiredDue(s.View(), now)) then Gone(s) else Kept(s, old(s.View()))
    {
      ghost var all := map s | s in byID.Values :: s.View();
      var todo := byID.Values;
      assert forall s <- all :: byID[s.id] == s;
      assert forall s, o | s in all && o in all && o != s :: o.id != s.id;
      n := 0;
      while todo != {}
        invariant Valid() && todo <= all.Keys && byID.Keys <= old(byID).Keys && Swept(all, todo, now)
        invariant n == |old(byID)| - |byID| && expired == old(expired) + n
        decreases todo
      {
        var s :| s in todo;
        var due := Visit(s, now, all, todo);
        if due { n := n + 1; }
        todo := todo - {s};
      }
    }

    method ExpireLocked(s: Session)
      requires Valid() && s.id in byID && byID[s.id] == s
      modifies this, s
      ensures Valid() && byID == old(byID) - {s.id} && |byID| == |old(byID)| - 1 && expired == old(expired) + 1
      ensures s.View() == Apply(old(s.View()), Op.Expire)
      ensures forall k <- byID :: byID[k].View() == old(byID[k].View())
    {
      s.Expire();
      assert (byID - {s.id}).Keys == byID.Keys - {s.id};
      byID := byID - {s.id};
      expired := expired + 1;
    }
  }
}
