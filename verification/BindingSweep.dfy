/** What one expiry sweep over the NAT64 tables amounts to. */
module BindingSweep {
  import opened Bytes
  import opened Results
  import opened Ports
  import opened BindingTables
  import opened Flows

  /** `next` is a lower bound on every expiry. */
  predicate NextOk(next: Option<nat>, sessions: map<SessionKey, Session>)
  {
    forall sk :: sk in sessions ==> next.Some? && next.value <= sessions[sk].expires
  }

  function Locals(s: State): (map<Port, Holder>, nat)
  {
    (map p | p in s.entries && s.entries[p].owner.Local? :: s.entries[p], s.next)
  }

  /** An index-consistent table owns exactly the keys of its sessions. */
  lemma FlowKeys(t: Tables)
    requires Counted(t)
    ensures FlowOf(t).leases.Keys == t.bindings.Keys
    ensures forall k :: k in t.bindings <==> Owned(t.sessions, k)
  {
    forall k
      ensures k in t.bindings <==> Owned(t.sessions, k)
    {
      if Owned(t.sessions, k) {
        var sk :| sk in SessionsOf(t.sessions, k);
      }
    }
  }

  lemma {:induction false} NothingDue(t: Tables, next: Option<nat>, now: nat)
    requires Counted(t) && NextOk(next, t.sessions) && (next.None? || next.value > now)
    ensures Swept(FlowOf(t), now) == FlowOf(t)
  {
    assert Survivors(t.sessions, now) == t.sessions;
    FlowKeys(t);
  }

  predicate IsAged(sessions: map<SessionKey, Session>, aged: map<SessionKey, Session>, now: nat)
  {
    aged.Keys == sessions.Keys && forall sk :: sk in sessions ==> aged[sk] == Aged(sessions[sk], now)
  }

  /** The first loop of `expire`. */
  method AgeAll(sessions: map<SessionKey, Session>, now: nat) returns (aged: map<SessionKey, Session>)
    ensures IsAged(sessions, aged, now)
  {
    aged := sessions;
    var todo := sessions.Keys;
    while todo != {}
      invariant todo <= sessions.Keys && aged.Keys == sessions.Keys
      invariant forall sk :: sk in sessions ==> aged[sk] == if sk in todo then sessions[sk] else Aged(sessions[sk], now)
      decreases |todo|
    {
      var sk :| sk in todo;
      var s := aged[sk];
      if s.expires <= now && s.tcp == Some(Established) {
        aged := aged[sk := Session(SatAdd(s.expires, TRANSITORY), Some(Transitory))];
      }
      todo := todo - {sk};
    }
  }

  /** The least expiry, if there is a session. */
  method Soonest(sessions: map<SessionKey, Session>) returns (next: Option<nat>)
    ensures NextOk(next, sessions)
    ensures next.Some? <==> sessions != map[]
    ensures next.Some? ==> exists sk :: sk in sessions && sessions[sk].expires == next.value
  {
    next := None;
    var todo := sessions.Keys;
    while todo != {}
      invariant todo <= sessions.Keys
      invariant next.None? <==> todo == sessions.Keys
      invariant forall sk :: sk in sessions && sk !in todo ==> next.Some? && next.value <= sessions[sk].expires
      invariant next.Some? ==> exists sk :: sk in sessions && sessions[sk].expires == next.value
      decreases |todo|
    {
      var sk :| sk in todo;
      if next.None? || sessions[sk].expires < next.value {
        next := Some(sessions[sk].expires);
      }
      todo := todo - {sk};
    }
  }

  lemma AgedIsConsistent(t: Tables, ports: State, aged: map<SessionKey, Session>)
    requires Consistent(t, ports) && aged.Keys == t.sessions.Keys
    ensures Consistent(t.(sessions := aged), ports)
  {
    hide Inverse, Leased, Sane, HostBindings, SessionsOf, HostSessions;
    AgedCounts(t.sessions, aged);
    AgedKeepsReverse(t, aged, ports);
  }

  lemma AgedCounts(sessions: map<SessionKey, Session>, aged: map<SessionKey, Session>)
    requires aged.Keys == sessions.Keys
    ensures forall k :: SessionsOf(aged, k) == SessionsOf(sessions, k)
    ensures forall h :: HostSessions(aged, h) == HostSessions(sessions, h)
  {
  }

  lemma AgedKeepsReverse(t: Tables, aged: map<SessionKey, Session>, ports: State)
    requires Inverse(t) && Leased(t, ports)
    ensures Inverse(t.(sessions := aged)) && Leased(t.(sessions := aged), ports)
  {
  }

  /** Halfway through the sweep: of the aged sessions, the live ones and those still due remain. */
  predicate Sweeping(t: Tables, aged: map<SessionKey, Session>, now: nat, u: Tables, due: set<SessionKey>)
  {
    && u.sessions == (map sk | sk in aged && (sk in due || aged[sk].expires > now) :: aged[sk])
    && (forall k :: k in u.bindings ==> k in t.bindings && u.bindings[k].lease == t.bindings[k].lease)
  }

  lemma SweepStarts(t: Tables, aged: map<SessionKey, Session>, now: nat, due: set<SessionKey>)
    requires due == set sk | sk in aged && aged[sk].expires <= now
    ensures Sweeping(t, aged, now, t.(sessions := aged), due)
  {
  }

  function FreedBy(bindings: map<Key, Binding>, sk: SessionKey): set<Port>
    requires sk.key in bindings
  {
    var b := bindings[sk.key];
    if b.sessions == 1 then {Port(sk.key.protocol, b.port)} else {}
  }

  lemma SweepStep(t: Tables, ports: State, aged: map<SessionKey, Session>, now: nat, u: Tables, due: set<SessionKey>, sk: SessionKey)
    requires Consistent(u, ports) && Sweeping(t, aged, now, u, due) && sk in due && due <= aged.Keys
    requires aged[sk].expires <= now
    ensures sk in u.sessions && sk.key in u.bindings
    ensures Sweeping(t, aged, now, WithoutSession(u, sk), due - {sk})
    ensures WithoutSession(u, sk).reverse.Keys == u.reverse.Keys - FreedBy(u.bindings, sk)
    ensures FreedBy(u.bindings, sk) <= u.reverse.Keys
    ensures Locals(PortsWithout(u, ports, sk)) == Locals(ports)
  {
    hide Consistent, Counted, Hosted, Leased, Sane, Locals, PortsWithout, Inverse, SessionsOf, WithoutSession, Drop, Aged;
    assert sk in u.sessions;
    ForgetFacts(u, ports, sk);
    StepLocals(u, ports, sk);
    assert (map x | x in aged && (x in due - {sk} || aged[x].expires > now) :: aged[x]) == u.sessions - {sk};
  }

  lemma StepLocals(u: Tables, ports: State, sk: SessionKey)
    requires Consistent(u, ports) && sk in u.sessions
    ensures Locals(PortsWithout(u, ports, sk)) == Locals(ports)
    ensures sk.key in u.bindings && FreedBy(u.bindings, sk) <= u.reverse.Keys
  {
    hide SessionsOf, HostSessions, HostBindings, Hosted, Held;
    var b := u.bindings[sk.key];
    assert PortOf(sk.key, b) in u.reverse;
    DropLocals(ports, b.lease);
  }

  lemma DropLocals(s: State, l: Lease)
    requires Sane(s) && l.port in s.entries && s.entries[l.port].owner.Translation?
    ensures Locals(Drop(s, l)) == Locals(s)
  {
    assert Locals(Drop(s, l)).0 == Locals(s).0;
  }

  /** When nothing is due any more, the tables are those of a full sweep. */
  lemma SweepEnds(t: Tables, aged: map<SessionKey, Session>, now: nat, u: Tables)
    requires Counted(t) && Counted(u) && IsAged(t.sessions, aged, now) && Sweeping(t, aged, now, u, {})
    ensures FlowOf(u) == Swept(FlowOf(t), now)
  {
    hide Counted, SessionsOf, Owned;
    assert u.sessions == Survivors(t.sessions, now);
    FlowKeys(u);
    FlowKeys(t);
    assert FlowOf(u).leases == Swept(FlowOf(t), now).leases;
  }
}
