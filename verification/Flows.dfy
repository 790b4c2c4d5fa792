/** What the NAT64 binding operations do to leases and sessions, apart from all indexes, and
    what every run of them keeps. */
module Flows {
  import opened Bytes
  import opened Results
  import opened Ports
  import opened BindingTables

  const TRANSITORY := 240_000
  const BYTE_CAP := 4 * 1024 * 1024

  /** The state that matters: which key owns which port, and which sessions are open. */
  datatype Flow = Flow(leases: map<Key, Lease>, sessions: map<SessionKey, Session>)

  ghost function FlowOf(t: Tables): Flow
  {
    Flow(map k | k in t.bindings :: t.bindings[k].lease, t.sessions)
  }

  // ---------------------------------------------------------------- transitions

  /** An idle established TCP session gets one transitory period before it goes. */
  function Aged(s: Session, now: nat): Session
  {
    if s.expires <= now && s.tcp == Some(Established) then Session(SatAdd(s.expires, TRANSITORY), Some(Transitory)) else s
  }

  function Survivors(sessions: map<SessionKey, Session>, now: nat): map<SessionKey, Session>
  {
    map sk | sk in sessions && Aged(sessions[sk], now).expires > now :: Aged(sessions[sk], now)
  }

  predicate Owned(sessions: map<SessionKey, Session>, k: Key) { SessionsOf(sessions, k) != {} }

  /** A full sweep: dead sessions go, and with its last session a binding. */
  function Swept(f: Flow, now: nat): Flow
  {
    var sessions := Survivors(f.sessions, now);
    Flow(map k | k in f.leases && Owned(sessions, k) :: f.leases[k], sessions)
  }

  function Opened(f: Flow, sk: SessionKey, s: Session, l: Lease): Flow
  {
    Flow(f.leases[sk.key := l], f.sessions[sk := s])
  }

  function Filtered(f: Flow, domains: set<Address>): Flow
  {
    Flow(map k | k in f.leases && k.domain in domains :: f.leases[k],
         map sk | sk in f.sessions && sk.key.domain in domains :: f.sessions[sk])
  }

  // ---------------------------------------------------------------- admission

  function HostsOf(leases: map<Key, Lease>): set<Address> { set k | k in leases :: k.host }

  function HostKeys(leases: map<Key, Lease>, h: Address): set<Key> { set k | k in leases && k.host == h }

  function Charge(f: Flow): nat { |f.leases| * 288 + |f.sessions| * 256 + |HostsOf(f.leases)| * 128 }

  function One(b: bool): nat { if b then 1 else 0 }

  /** `admit`, in terms of true counts. */
  predicate Admitted(f: Flow, sk: SessionKey)
  {
    var h := sk.key.host;
    var newBinding, newSession := sk.key !in f.leases, sk !in f.sessions;
    && Charge(f) + One(newBinding) * 288 + One(h !in HostsOf(f.leases)) * 128 + One(newSession) * 256 <= BYTE_CAP
    && (newBinding ==> |f.leases| < 4096 && |HostKeys(f.leases, h)| < 128)
    && (newSession ==> |f.sessions| < 8192 && |HostSessions(f.sessions, h)| < 256)
  }

  /** The caps admission enforces hold throughout. */
  predicate Capped(f: Flow)
  {
    && |f.leases| <= 4096 && |f.sessions| <= 8192
    && (forall h :: h in HostsOf(f.leases) ==> |HostKeys(f.leases, h)| <= 128 && |HostSessions(f.sessions, h)| <= 256)
    && (forall sk :: sk in f.sessions ==> sk.key in f.leases)
  }

  lemma {:induction false} ImageSize(leases: map<Key, Lease>, keys: set<Key>)
    requires keys <= leases.Keys
    ensures |set k | k in keys :: k.host| <= |keys|
    decreases |keys|
  {
    if keys != {} {
      var k :| k in keys;
      ImageSize(leases, keys - {k});
      var hosts := set j | j in keys :: j.host;
      var rest := set j | j in keys - {k} :: j.host;
      assert hosts == rest + {k.host};
    }
  }

  /** The byte budget never refuses what the other caps allow. */
  lemma ChargeNeverBinds(f: Flow)
    requires Capped(f)
    ensures Charge(f) <= 4096 * 288 + 8192 * 256 + 4096 * 128 < BYTE_CAP
  {
    ImageSize(f.leases, f.leases.Keys);
    assert HostsOf(f.leases) == set k | k in f.leases.Keys :: k.host;
    assert |f.leases| == |f.leases.Keys|;
  }

  /** Admission in plain numbers: a new binding needs fewer than 4096, and 128 for its host; a new
      session fewer than 8192, and 256 for its host. Nothing else is ever asked. */
  lemma AdmittedExactly(f: Flow, sk: SessionKey)
    requires Capped(f)
    ensures Admitted(f, sk) <==>
              && (sk.key in f.leases || (|f.leases| < 4096 && |set k | k in f.leases && k.host == sk.key.host| < 128))
              && (sk in f.sessions || (|f.sessions| < 8192 && |set s | s in f.sessions && s.key.host == sk.key.host| < 256))
  {
    ChargeNeverBinds(f);
    assert HostKeys(f.leases, sk.key.host) == set k | k in f.leases && k.host == sk.key.host;
    assert HostSessions(f.sessions, sk.key.host) == set s | s in f.sessions && s.key.host == sk.key.host;
  }

  /** A sweep in plain terms: a session stays while its time is not over, an established TCP session
      for another 240 s; a port stays while its key has a session. */
  lemma SweptExactly(f: Flow, now: nat, sk: SessionKey, k: Key)
    ensures sk in Swept(f, now).sessions <==>
              sk in f.sessions && (f.sessions[sk].expires > now
                                   || (f.sessions[sk].tcp == Some(Established) && SatAdd(f.sessions[sk].expires, 240_000) > now))
    ensures sk in Swept(f, now).sessions ==>
              Swept(f, now).sessions[sk] == if f.sessions[sk].expires > now then f.sessions[sk]
                                            else Session(SatAdd(f.sessions[sk].expires, 240_000), Some(Transitory))
    ensures k in Swept(f, now).leases <==> k in f.leases && exists s :: s in Swept(f, now).sessions && s.key == k
    ensures k in Swept(f, now).leases ==> Swept(f, now).leases[k] == f.leases[k]
  {
    var sessions := Survivors(f.sessions, now);
    assert Owned(sessions, k) <==> exists s :: s in sessions && s.key == k by {
      if s :| s in sessions && s.key == k { assert s in SessionsOf(sessions, k); }
    }
  }

  /** Traffic of a live session is never refused. */
  lemma LiveSessionAdmitted(f: Flow, sk: SessionKey)
    requires Capped(f) && sk in f.sessions
    ensures Admitted(f, sk)
  {
    ChargeNeverBinds(f);
    assert sk.key.host in HostsOf(f.leases);
  }

  // ---------------------------------------------------------------- caps are kept

  lemma SmallerIsCapped(f: Flow, g: Flow)
    requires Capped(f) && g.leases.Keys <= f.leases.Keys && g.sessions.Keys <= f.sessions.Keys
    requires forall sk :: sk in g.sessions ==> sk.key in g.leases
    ensures Capped(g)
  {
    SubsetSize(g.leases.Keys, f.leases.Keys);
    SubsetSize(g.sessions.Keys, f.sessions.Keys);
    assert |g.leases| == |g.leases.Keys| && |f.leases| == |f.leases.Keys|;
    assert |g.sessions| == |g.sessions.Keys| && |f.sessions| == |f.sessions.Keys|;
    forall h | h in HostsOf(g.leases)
      ensures |HostKeys(g.leases, h)| <= 128 && |HostSessions(g.sessions, h)| <= 256
    {
      SubsetSize(HostKeys(g.leases, h), HostKeys(f.leases, h));
      SubsetSize(HostSessions(g.sessions, h), HostSessions(f.sessions, h));
      assert h in HostsOf(f.leases);
    }
  }

  lemma SweptIsCapped(f: Flow, now: nat)
    requires Capped(f)
    ensures Capped(Swept(f, now))
  {
    var g := Swept(f, now);
    forall sk | sk in g.sessions
      ensures sk.key in g.leases
    {
      assert sk in SessionsOf(g.sessions, sk.key);
    }
    SmallerIsCapped(f, g);
  }

  lemma FilteredIsCapped(f: Flow, domains: set<Address>)
    requires Capped(f)
    ensures Capped(Filtered(f, domains))
  {
    SmallerIsCapped(f, Filtered(f, domains));
  }

  lemma OpenedIsCapped(f: Flow, sk: SessionKey, s: Session, l: Lease)
    requires Capped(f) && Admitted(f, sk)
    ensures Capped(Opened(f, sk, s, l))
  {
    hide HostKeys, HostSessions, HostsOf, Charge;
    var g := Opened(f, sk, s, l);
    assert g.leases.Keys == f.leases.Keys + {sk.key} && g.sessions.Keys == f.sessions.Keys + {sk};
    assert |g.leases| == |g.leases.Keys| && |g.sessions| == |g.sessions.Keys|;
    assert |f.leases| == |f.leases.Keys| && |f.sessions| == |f.sessions.Keys|;
    forall h | h in HostsOf(g.leases)
      ensures |HostKeys(g.leases, h)| <= 128 && |HostSessions(g.sessions, h)| <= 256
    {
      HostAfterOpen(f, sk, s, l, h);
    }
  }

  lemma HostAfterOpen(f: Flow, sk: SessionKey, s: Session, l: Lease, h: Address)
    requires Capped(f) && Admitted(f, sk)
    requires h in HostsOf(Opened(f, sk, s, l).leases)
    ensures |HostKeys(Opened(f, sk, s, l).leases, h)| <= 128 && |HostSessions(Opened(f, sk, s, l).sessions, h)| <= 256
  {
    hide HostKeys, HostSessions, HostsOf, Charge;
    OpenedHostKeys(f, sk, s, l, h);
    if h != sk.key.host {
      OpenedOtherHost(f, sk, s, l, h);
    } else if h !in HostsOf(f.leases) {
      UnknownHost(f, h);
    }
  }

  lemma OpenedHostKeys(f: Flow, sk: SessionKey, s: Session, l: Lease, h: Address)
    ensures var g := Opened(f, sk, s, l);
            && |HostKeys(g.leases, h)| == |HostKeys(f.leases, h)| + One(h == sk.key.host && sk.key !in f.leases)
            && |HostSessions(g.sessions, h)| == |HostSessions(f.sessions, h)| + One(h == sk.key.host && sk !in f.sessions)
  {
    var g := Opened(f, sk, s, l);
    if h == sk.key.host && sk.key !in f.leases {
      assert HostKeys(g.leases, h) == HostKeys(f.leases, h) + {sk.key};
    } else {
      assert HostKeys(g.leases, h) == HostKeys(f.leases, h);
    }
    if h == sk.key.host && sk !in f.sessions {
      assert HostSessions(g.sessions, h) == HostSessions(f.sessions, h) + {sk};
    } else {
      assert HostSessions(g.sessions, h) == HostSessions(f.sessions, h);
    }
  }

  lemma OpenedOtherHost(f: Flow, sk: SessionKey, s: Session, l: Lease, h: Address)
    requires h != sk.key.host && h in HostsOf(Opened(f, sk, s, l).leases)
    ensures h in HostsOf(f.leases)
  {
  }

  lemma UnknownHost(f: Flow, h: Address)
    requires Capped(f) && h !in HostsOf(f.leases)
    ensures HostKeys(f.leases, h) == {} && HostSessions(f.sessions, h) == {}
  {
  }
}
