/** The coupled NAT64 indexes of src/nat64/bindings.rs as values: what keeps them consistent. */
module BindingTables {
  import opened Results
  import opened Ports

  type Address = nat

  /** (protocol, stub host, its port or identifier, the prefix it used). */
  datatype Key = Key(protocol: nat, host: Address, port: nat, domain: Address)

  datatype Remote = Remote(ip: nat, port: nat)

  datatype SessionKey = SessionKey(key: Key, remote: Remote)

  datatype TcpState = V4Init | V6Init | Established | V4Fin | V6Fin | BothFin | Transitory

  datatype Session = Session(expires: nat, tcp: Option<TcpState>)

  datatype Binding = Binding(lease: Lease, port: nat, sessions: nat)

  /** Bindings and sessions held for one stub host. */
  datatype Load = Load(bindings: nat, sessions: nat)

  datatype Tables = Tables(
    bindings: map<Key, Binding>,
    reverse: map<Port, Key>,
    sessions: map<SessionKey, Session>,
    hosts: map<Address, Load>)

  // ---------------------------------------------------------------- true counts

  function SessionsOf(sessions: map<SessionKey, Session>, k: Key): (s: set<SessionKey>)
  {
    set sk | sk in sessions && sk.key == k
  }

  function HostSessions(sessions: map<SessionKey, Session>, h: Address): (s: set<SessionKey>)
  {
    set sk | sk in sessions && sk.key.host == h
  }

  function HostBindings(bindings: map<Key, Binding>, h: Address): (s: set<Key>)
  {
    set k | k in bindings && k.host == h
  }

  function PortOf(k: Key, b: Binding): Port { Port(k.protocol, b.port) }

  /** Each binding counts its sessions and has at least one; no session lacks a binding. */
  predicate Counted(t: Tables)
  {
    && (forall k :: k in t.bindings ==> 1 <= t.bindings[k].sessions == |SessionsOf(t.sessions, k)|)
    && (forall sk :: sk in t.sessions ==> sk.key in t.bindings)
  }

  /** `bindings` and `reverse` are mutually inverse. */
  predicate Inverse(t: Tables)
  {
    && (forall k :: k in t.bindings ==>
          PortOf(k, t.bindings[k]) in t.reverse && t.reverse[PortOf(k, t.bindings[k])] == k)
    && (forall p :: p in t.reverse ==>
          t.reverse[p] in t.bindings && PortOf(t.reverse[p], t.bindings[t.reverse[p]]) == p)
  }

  /** Host counters are true counts, and only hosts with bindings have one. */
  predicate Hosted(t: Tables)
  {
    && (forall h :: h in t.hosts ==>
          t.hosts[h] == Load(|HostBindings(t.bindings, h)|, |HostSessions(t.sessions, h)|)
          && HostBindings(t.bindings, h) != {})
    && (forall k :: k in t.bindings ==> k.host in t.hosts)
  }

  /** Every binding owns exactly one live translation lease, and no other such lease exists. */
  predicate Leased(t: Tables, ports: State)
  {
    && (forall k :: k in t.bindings ==>
          var b := t.bindings[k];
          b.lease.port == PortOf(k, b) && Live(ports, b.lease) && ports.entries[b.lease.port].owner.Translation?)
    && (forall p :: p in ports.entries && ports.entries[p].owner.Translation? ==> p in t.reverse)
  }

  predicate Consistent(t: Tables, ports: State)
  {
    Counted(t) && Inverse(t) && Hosted(t) && Leased(t, ports) && Sane(ports)
  }

  const Empty := Tables(map[], map[], map[], map[])

  // ---------------------------------------------------------------- sizes

  lemma {:induction false} InjectiveSize<A(!new), B>(s: set<A>, t: set<B>, f: map<A, B>)
    requires f.Keys == s && (forall a :: a in s ==> f[a] in t)
    requires forall a, b :: a in s && b in s && a != b ==> f[a] != f[b]
    ensures |s| <= |t|
    decreases |s|
  {
    if s != {} {
      var a :| a in s;
      var g := map x | x in s - {a} :: f[x];
      InjectiveSize(s - {a}, t - {f[a]}, g);
    }
  }

  lemma AsManyReverse(t: Tables)
    requires Inverse(t)
    ensures |t.bindings| == |t.reverse|
  {
    InjectiveSize(t.bindings.Keys, t.reverse.Keys, map k | k in t.bindings :: PortOf(k, t.bindings[k]));
    InjectiveSize(t.reverse.Keys, t.bindings.Keys, t.reverse);
    assert |t.bindings| == |t.bindings.Keys| && |t.reverse| == |t.reverse.Keys|;
  }

  lemma LeasesAreReverse(t: Tables, ports: State)
    requires Inverse(t) && Leased(t, ports)
    ensures Held(ports.entries, Translation) == t.reverse.Keys
  {
    forall p | p in t.reverse
      ensures p in Held(ports.entries, Translation)
    {
      assert PortOf(t.reverse[p], t.bindings[t.reverse[p]]) == p;
    }
  }

  /** There are as many bindings as translation leases. */
  lemma AsManyLeases(t: Tables, ports: State)
    requires Inverse(t) && Leased(t, ports) && Sane(ports)
    ensures ports.translation == |t.bindings| == |t.reverse|
  {
    hide Inverse, Leased, Held;
    AsManyReverse(t);
    LeasesAreReverse(t, ports);
    assert |t.reverse| == |t.reverse.Keys|;
  }

  // ---------------------------------------------------------------- removing a session

  /** The tables after one session is taken out, as the loop of `expire` does it. */
  function WithoutSession(t: Tables, sk: SessionKey): (r: Tables)
    requires Counted(t) && Hosted(t) && sk in t.sessions
  {
    var k := sk.key;
    var sessions := t.sessions - {sk};
    var b := t.bindings[k].(sessions := t.bindings[k].sessions - 1);
    assert sk in HostSessions(t.sessions, k.host) && k in HostBindings(t.bindings, k.host);
    var h := t.hosts[k.host].(sessions := t.hosts[k.host].sessions - 1);
    if b.sessions > 0 then Tables(t.bindings[k := b], t.reverse, sessions, t.hosts[k.host := h])
    else
      var h' := h.(bindings := h.bindings - 1);
      Tables(t.bindings - {k}, t.reverse - {PortOf(k, b)}, sessions,
             if h'.bindings == 0 then t.hosts - {k.host} else t.hosts[k.host := h'])
  }

  /** Its fields, case by case. */
  lemma WithoutShape(t: Tables, sk: SessionKey)
    requires Counted(t) && Hosted(t) && sk in t.sessions
    ensures var k := sk.key; var b := t.bindings[k]; var h := t.hosts[k.host]; var r := WithoutSession(t, sk);
            && b.sessions >= 1 && h.sessions >= 1 && h.bindings >= 1
            && r.sessions == t.sessions - {sk}
            && (b.sessions > 1 ==>
                  && r.bindings == t.bindings[k := b.(sessions := b.sessions - 1)] && r.reverse == t.reverse
                  && r.hosts == t.hosts[k.host := h.(sessions := h.sessions - 1)])
            && (b.sessions == 1 ==>
                  && r.bindings == t.bindings - {k} && r.reverse == t.reverse - {Port(k.protocol, b.port)}
                  && r.hosts == if h.bindings == 1 then t.hosts - {k.host}
                                else t.hosts[k.host := Load(h.bindings - 1, h.sessions - 1)])
  {
    hide Counted, Hosted, SessionsOf, HostSessions, HostBindings;
    OwnersExist(t, sk);
  }

  /** The registry after that. */
  function PortsWithout(t: Tables, ports: State, sk: SessionKey): State
    requires Sane(ports) && Counted(t) && sk in t.sessions
  {
    if t.bindings[sk.key].sessions > 1 then ports else Drop(ports, t.bindings[sk.key].lease)
  }

  lemma RemoveCounts(t: Tables, sk: SessionKey)
    requires sk in t.sessions
    ensures forall k :: SessionsOf(t.sessions - {sk}, k) == if k == sk.key then SessionsOf(t.sessions, k) - {sk} else SessionsOf(t.sessions, k)
    ensures forall h :: HostSessions(t.sessions - {sk}, h) == if h == sk.key.host then HostSessions(t.sessions, h) - {sk} else HostSessions(t.sessions, h)
    ensures sk in SessionsOf(t.sessions, sk.key) && sk in HostSessions(t.sessions, sk.key.host)
  {
  }

  lemma WithoutKeepsCounted(t: Tables, sk: SessionKey)
    requires Counted(t) && Hosted(t) && sk in t.sessions
    ensures Counted(WithoutSession(t, sk))
  {
    hide SessionsOf, HostSessions, HostBindings, WithoutSession, Hosted;
    OwnersExist(t, sk);
    WithoutShape(t, sk);
    OneSessionLess(t, sk);
    var r := WithoutSession(t, sk);
    if t.bindings[sk.key].sessions == 1 { LastSessionGone(t, sk); }
  }

  lemma OneSessionLess(t: Tables, sk: SessionKey)
    requires sk in t.sessions
    ensures forall k :: |SessionsOf(t.sessions - {sk}, k)| == |SessionsOf(t.sessions, k)| - if k == sk.key then 1 else 0
  {
    RemoveCounts(t, sk);
    hide SessionsOf, HostSessions;
    assert |SessionsOf(t.sessions, sk.key) - {sk}| == |SessionsOf(t.sessions, sk.key)| - 1;
  }

  lemma LastSessionGone(t: Tables, sk: SessionKey)
    requires Counted(t) && sk in t.sessions && t.bindings[sk.key].sessions == 1
    ensures forall other :: other in t.sessions - {sk} ==> other.key != sk.key
  {
    hide SessionsOf;
    OneSessionLess(t, sk);
    forall other | other in t.sessions - {sk}
      ensures other.key != sk.key
    {
      assert SessionsOf(t.sessions - {sk}, sk.key) == {};
      NotCounted(t.sessions - {sk}, other);
    }
  }

  lemma NotCounted(sessions: map<SessionKey, Session>, sk: SessionKey)
    requires sk in sessions
    ensures sk in SessionsOf(sessions, sk.key) && sk in HostSessions(sessions, sk.key.host)
  {
  }

  lemma WithoutKeepsInverse(t: Tables, sk: SessionKey)
    requires Counted(t) && Hosted(t) && sk in t.sessions && Inverse(t)
    ensures Inverse(WithoutSession(t, sk))
  {
    hide SessionsOf, HostSessions, HostBindings, Hosted;
    OwnersExist(t, sk);
    var r := WithoutSession(t, sk);
    if t.bindings[sk.key].sessions == 1 {
      var p := PortOf(sk.key, t.bindings[sk.key]);
      forall k | k in r.bindings
        ensures PortOf(k, r.bindings[k]) in r.reverse && r.reverse[PortOf(k, r.bindings[k])] == k
      {
        assert t.reverse[PortOf(k, t.bindings[k])] == k != t.reverse[p];
      }
    } else {
      assert r.reverse == t.reverse;
    }
  }

  lemma OwnersExist(t: Tables, sk: SessionKey)
    requires Counted(t) && Hosted(t) && sk in t.sessions
    ensures sk.key in t.bindings && sk.key.host in t.hosts
    ensures t.bindings[sk.key].sessions > 0
    ensures t.hosts[sk.key.host].bindings > 0 && t.hosts[sk.key.host].sessions > 0
  {
    NotCounted(t.sessions, sk);
    assert sk.key in HostBindings(t.bindings, sk.key.host);
  }

  lemma RemoveBindingCounts(bindings: map<Key, Binding>, k: Key)
    requires k in bindings
    ensures forall h :: HostBindings(bindings - {k}, h) == if h == k.host then HostBindings(bindings, h) - {k} else HostBindings(bindings, h)
    ensures k in HostBindings(bindings, k.host)
  {
  }

  lemma UpdateBindingCounts(bindings: map<Key, Binding>, k: Key, b: Binding)
    requires k in bindings
    ensures forall h :: HostBindings(bindings[k := b], h) == HostBindings(bindings, h)
  {
  }

  lemma WithoutKeepsHosted(t: Tables, sk: SessionKey)
    requires Counted(t) && Hosted(t) && sk in t.sessions
    ensures Hosted(WithoutSession(t, sk))
  {
    hide SessionsOf, HostSessions, HostBindings, WithoutSession, Counted;
    OwnersExist(t, sk);
    WithoutShape(t, sk);
    OneHostSessionLess(t, sk);
    OneHostBindingLess(t.bindings, sk.key);
    UpdateBindingCounts(t.bindings, sk.key, t.bindings[sk.key].(sessions := t.bindings[sk.key].sessions - 1));
    var r := WithoutSession(t, sk);
    if sk.key.host !in r.hosts {
      forall k | k in r.bindings
        ensures k.host in r.hosts
      {
        InHostBindings(r.bindings, k);
      }
    }
  }

  lemma OneHostSessionLess(t: Tables, sk: SessionKey)
    requires sk in t.sessions
    ensures forall h :: |HostSessions(t.sessions - {sk}, h)| == |HostSessions(t.sessions, h)| - if h == sk.key.host then 1 else 0
  {
    RemoveCounts(t, sk);
    hide SessionsOf, HostSessions;
    assert |HostSessions(t.sessions, sk.key.host) - {sk}| == |HostSessions(t.sessions, sk.key.host)| - 1;
  }

  lemma OneHostBindingLess(bindings: map<Key, Binding>, k: Key)
    requires k in bindings
    ensures forall h :: |HostBindings(bindings - {k}, h)| == |HostBindings(bindings, h)| - if h == k.host then 1 else 0
    ensures forall h :: HostBindings(bindings - {k}, h) == {} <==> |HostBindings(bindings - {k}, h)| == 0
  {
    RemoveBindingCounts(bindings, k);
    hide HostBindings;
    assert |HostBindings(bindings, k.host) - {k}| == |HostBindings(bindings, k.host)| - 1;
  }

  lemma InHostBindings(bindings: map<Key, Binding>, k: Key)
    requires k in bindings
    ensures k in HostBindings(bindings, k.host)
  {
  }

  lemma WithoutKeepsLeased(t: Tables, ports: State, sk: SessionKey)
    requires Counted(t) && Hosted(t) && sk in t.sessions && Inverse(t) && Leased(t, ports) && Sane(ports)
    ensures Leased(WithoutSession(t, sk), PortsWithout(t, ports, sk))
    ensures Sane(PortsWithout(t, ports, sk))
  {
    hide SessionsOf, HostSessions, HostBindings, Hosted, Held;
    OwnersExist(t, sk);
    var k, b := sk.key, t.bindings[sk.key];
    DropKeepsOk(ports, b.lease);
    if b.sessions == 1 {
      UnbindKeepsLeased(t, ports, k);
      var r := WithoutSession(t, sk);
      assert r.bindings == t.bindings - {k} && r.reverse == t.reverse - {b.lease.port};
    }
  }

  lemma UnbindKeepsLeased(t: Tables, ports: State, k: Key)
    requires Inverse(t) && Leased(t, ports) && Sane(ports) && k in t.bindings
    ensures var l := t.bindings[k].lease;
            Leased(Tables(t.bindings - {k}, t.reverse - {l.port}, map[], map[]), Drop(ports, l))
  {
    hide Held;
    var l := t.bindings[k].lease;
    forall j | j in t.bindings && j != k
      ensures t.bindings[j].lease.port != l.port
    {
      assert t.reverse[PortOf(j, t.bindings[j])] == j;
      assert t.reverse[PortOf(k, t.bindings[k])] == k;
    }
  }

  /** Taking out a session keeps all indexes consistent; the last one frees port and lease. */
  lemma WithoutKeepsConsistent(t: Tables, ports: State, sk: SessionKey)
    requires Consistent(t, ports) && sk in t.sessions
    ensures Consistent(WithoutSession(t, sk), PortsWithout(t, ports, sk))
  {
    WithoutKeepsCounted(t, sk);
    WithoutKeepsInverse(t, sk);
    WithoutKeepsHosted(t, sk);
    WithoutKeepsLeased(t, ports, sk);
  }

  // ---------------------------------------------------------------- adding or renewing a session

  function WithSession(t: Tables, sk: SessionKey, s: Session): (r: Tables)
    requires sk.key in t.bindings && sk.key.host in t.hosts
  {
    if sk in t.sessions then t.(sessions := t.sessions[sk := s])
    else
      var b, h := t.bindings[sk.key], t.hosts[sk.key.host];
      Tables(t.bindings[sk.key := b.(sessions := b.sessions + 1)], t.reverse, t.sessions[sk := s],
             t.hosts[sk.key.host := h.(sessions := h.sessions + 1)])
  }

  lemma AddCounts(t: Tables, sk: SessionKey, s: Session)
    ensures forall k :: SessionsOf(t.sessions[sk := s], k) == if k == sk.key then SessionsOf(t.sessions, k) + {sk} else SessionsOf(t.sessions, k)
    ensures forall h :: HostSessions(t.sessions[sk := s], h) == if h == sk.key.host then HostSessions(t.sessions, h) + {sk} else HostSessions(t.sessions, h)
    ensures sk in t.sessions <==> sk in SessionsOf(t.sessions, sk.key)
    ensures sk in t.sessions <==> sk in HostSessions(t.sessions, sk.key.host)
  {
  }

  lemma WithSessionKeepsConsistent(t: Tables, ports: State, sk: SessionKey, s: Session)
    requires Consistent(t, ports) && sk.key in t.bindings && sk.key.host in t.hosts
    ensures Consistent(WithSession(t, sk, s), ports)
  {
    hide SessionsOf, HostSessions, HostBindings, Sane, Counted, Hosted;
    WithSessionCounted(t, sk, s);
    WithSessionHosted(t, sk, s);
  }

  lemma WithSessionCounted(t: Tables, sk: SessionKey, s: Session)
    requires Counted(t) && sk.key in t.bindings && sk.key.host in t.hosts
    ensures Counted(WithSession(t, sk, s))
  {
    hide SessionsOf, HostSessions, HostBindings;
    AddCounts(t, sk, s);
    if sk in t.sessions {
      assert SessionsOf(t.sessions, sk.key) + {sk} == SessionsOf(t.sessions, sk.key);
    } else {
      assert |SessionsOf(t.sessions, sk.key) + {sk}| == |SessionsOf(t.sessions, sk.key)| + 1;
    }
  }

  lemma WithSessionHosted(t: Tables, sk: SessionKey, s: Session)
    requires Hosted(t) && sk.key in t.bindings && sk.key.host in t.hosts
    ensures Hosted(WithSession(t, sk, s))
  {
    hide SessionsOf, HostSessions, HostBindings;
    var b := t.bindings[sk.key];
    UpdateBindingCounts(t.bindings, sk.key, b.(sessions := b.sessions + 1));
    HostSessionsAfter(t, sk, s);
  }

  lemma HostSessionsAfter(t: Tables, sk: SessionKey, s: Session)
    ensures forall h :: |HostSessions(t.sessions[sk := s], h)|
                        == |HostSessions(t.sessions, h)| + if h == sk.key.host && sk !in t.sessions then 1 else 0
  {
    AddCounts(t, sk, s);
    hide SessionsOf, HostSessions;
    var all := HostSessions(t.sessions, sk.key.host);
    if sk in t.sessions {
      assert all + {sk} == all;
    } else {
      assert |all + {sk}| == |all| + 1;
    }
  }

  // ---------------------------------------------------------------- a new binding and its first session

  function HostLoad(t: Tables, h: Address): Load { if h in t.hosts then t.hosts[h] else Load(0, 0) }

  function WithBinding(t: Tables, sk: SessionKey, s: Session, l: Lease): (r: Tables)
  {
    var h := HostLoad(t, sk.key.host);
    Tables(t.bindings[sk.key := Binding(l, l.port.number, 1)], t.reverse[l.port := sk.key], t.sessions[sk := s],
           t.hosts[sk.key.host := Load(h.bindings + 1, h.sessions + 1)])
  }

  lemma AddBindingCounts(bindings: map<Key, Binding>, k: Key, b: Binding)
    requires k !in bindings
    ensures forall h :: HostBindings(bindings[k := b], h) == if h == k.host then HostBindings(bindings, h) + {k} else HostBindings(bindings, h)
    ensures k !in HostBindings(bindings, k.host)
  {
  }

  lemma NoOrphans(t: Tables, k: Key)
    requires Counted(t) && k !in t.bindings
    ensures SessionsOf(t.sessions, k) == {}
  {
  }

  lemma NoHost(t: Tables, h: Address)
    requires Counted(t) && Hosted(t) && h !in t.hosts
    ensures HostBindings(t.bindings, h) == {} && HostSessions(t.sessions, h) == {}
  {
  }

  lemma WithBindingCounted(t: Tables, sk: SessionKey, s: Session, l: Lease)
    requires Counted(t) && sk.key !in t.bindings
    ensures Counted(WithBinding(t, sk, s, l))
  {
    hide SessionsOf, HostSessions, HostBindings;
    AddCounts(t, sk, s);
    NoOrphans(t, sk.key);
  }

  lemma WithBindingHosted(t: Tables, sk: SessionKey, s: Session, l: Lease)
    requires Counted(t) && Hosted(t) && sk.key !in t.bindings
    ensures Hosted(WithBinding(t, sk, s, l))
  {
    hide SessionsOf, HostSessions, HostBindings;
    var h, b := sk.key.host, Binding(l, l.port.number, 1);
    NotThere(t, sk);
    HostSessionsAfter(t, sk, s);
    OneHostBindingMore(t.bindings, sk.key, b);
    if h !in t.hosts { NoHost(t, h); }
  }

  lemma NotThere(t: Tables, sk: SessionKey)
    requires Counted(t) && sk.key !in t.bindings
    ensures sk !in t.sessions
  {
  }

  lemma OneHostBindingMore(bindings: map<Key, Binding>, k: Key, b: Binding)
    requires k !in bindings
    ensures forall h :: |HostBindings(bindings[k := b], h)| == |HostBindings(bindings, h)| + if h == k.host then 1 else 0
  {
    AddBindingCounts(bindings, k, b);
    hide HostBindings;
    assert |HostBindings(bindings, k.host) + {k}| == |HostBindings(bindings, k.host)| + 1;
  }

  /** Binding a key to a freshly claimed port keeps all indexes consistent. */
  lemma WithBindingKeepsConsistent(t: Tables, ports: State, sk: SessionKey, s: Session, p: Port)
    requires Consistent(t, ports) && sk.key !in t.bindings && p.protocol == sk.key.protocol
    requires Claim(ports, p, Translation).Ok?
    ensures var (ports', l) := Claim(ports, p, Translation).value;
            Consistent(WithBinding(t, sk, s, l), ports')
  {
    hide SessionsOf, HostSessions, HostBindings, Sane, Counted, Hosted;
    var (ports', l) := Claim(ports, p, Translation).value;
    ClaimKeepsOk(ports, p, Translation);
    WithBindingCounted(t, sk, s, l);
    WithBindingHosted(t, sk, s, l);
    ReverseIsTaken(t, ports, p);
    WithBindingInverse(t, sk, s, l);
    WithBindingLeased(t, ports, sk, s, p);
  }

  lemma ReverseIsTaken(t: Tables, ports: State, p: Port)
    requires Inverse(t) && Leased(t, ports)
    ensures p in t.reverse ==> p in ports.entries
  {
    if p in t.reverse { assert t.bindings[t.reverse[p]].lease.port == p; }
  }

  lemma WithBindingInverse(t: Tables, sk: SessionKey, s: Session, l: Lease)
    requires Inverse(t) && sk.key !in t.bindings && l.port !in t.reverse && l.port.protocol == sk.key.protocol
    ensures Inverse(WithBinding(t, sk, s, l))
  {
  }

  lemma WithBindingLeased(t: Tables, ports: State, sk: SessionKey, s: Session, p: Port)
    requires Inverse(t) && Leased(t, ports) && sk.key !in t.bindings && p !in t.reverse && p.protocol == sk.key.protocol
    requires Claim(ports, p, Translation).Ok?
    ensures var (ports', l) := Claim(ports, p, Translation).value;
            Leased(WithBinding(t, sk, s, l), ports')
  {
  }

  // ---------------------------------------------------------------- keeping some prefixes only

  function Kept(t: Tables, domains: set<Address>): (r: Tables)
  {
    var bindings := map k | k in t.bindings && k.domain in domains :: t.bindings[k];
    var sessions := map sk | sk in t.sessions && sk.key.domain in domains :: t.sessions[sk];
    Tables(bindings,
           map p | p in t.reverse && t.reverse[p].domain in domains :: t.reverse[p],
           sessions,
           map k | k in bindings.Keys :: k.host := Load(|HostBindings(bindings, k.host)|, |HostSessions(sessions, k.host)|))
  }

  function PortsKept(t: Tables, ports: State, domains: set<Address>): (e: map<Port, Holder>)
  {
    map p | p in ports.entries && (p in t.reverse ==> t.reverse[p].domain in domains) :: ports.entries[p]
  }

  lemma KeptKeepsConsistent(t: Tables, ports: State, ports': State, domains: set<Address>)
    requires Consistent(t, ports) && Sane(ports') && ports'.entries == PortsKept(t, ports, domains)
    ensures Consistent(Kept(t, domains), ports')
  {
    KeptCounted(t, domains);
    KeptHosted(t, domains);
    hide SessionsOf, HostSessions, HostBindings, Sane, Counted, Hosted;
    KeptLeased(t, ports, ports', domains);
  }

  lemma KeptCounted(t: Tables, domains: set<Address>)
    requires Counted(t)
    ensures Counted(Kept(t, domains))
  {
    var r := Kept(t, domains);
    forall k | k in r.bindings
      ensures SessionsOf(r.sessions, k) == SessionsOf(t.sessions, k)
    {
    }
  }

  lemma KeptHosted(t: Tables, domains: set<Address>)
    ensures Hosted(Kept(t, domains))
  {
    hide HostSessions;
    var r := Kept(t, domains);
    forall h | h in r.hosts
      ensures HostBindings(r.bindings, h) != {}
    {
      var k :| k in r.bindings && k.host == h;
      assert k in HostBindings(r.bindings, h);
    }
  }

  lemma KeptLeased(t: Tables, ports: State, ports': State, domains: set<Address>)
    requires Inverse(t) && Leased(t, ports) && ports'.entries == PortsKept(t, ports, domains)
    ensures Inverse(Kept(t, domains)) && Leased(Kept(t, domains), ports')
  {
  }

  /** All that `expire` needs to know before it takes a session out. */
  lemma ForgetFacts(t: Tables, ports: State, sk: SessionKey)
    requires Consistent(t, ports) && sk in t.sessions
    ensures Sane(ports) && Counted(t) && Hosted(t)
    ensures Consistent(WithoutSession(t, sk), PortsWithout(t, ports, sk))
    ensures sk.key in t.bindings && sk.key.host in t.hosts
    ensures var k := sk.key; var b := t.bindings[k]; var h := t.hosts[k.host]; var r := WithoutSession(t, sk);
            && b.sessions >= 1 && h.sessions >= 1 && h.bindings >= 1
            && r.sessions == t.sessions - {sk}
            && (b.sessions > 1 ==>
                  && r.bindings == t.bindings[k := b.(sessions := b.sessions - 1)] && r.reverse == t.reverse
                  && r.hosts == t.hosts[k.host := h.(sessions := h.sessions - 1)]
                  && PortsWithout(t, ports, sk) == ports)
            && (b.sessions == 1 ==>
                  && r.bindings == t.bindings - {k} && r.reverse == t.reverse - {Port(k.protocol, b.port)}
                  && (h.bindings == 1 ==> r.hosts == t.hosts - {k.host})
                  && (h.bindings > 1 ==> r.hosts == t.hosts[k.host := Load(h.bindings - 1, h.sessions - 1)])
                  && PortsWithout(t, ports, sk) == Drop(ports, b.lease))
  {
    WithoutKeepsConsistent(t, ports, sk);
    hide Inverse, Leased, Sane, Drop;
    WithoutShape(t, sk);
  }

  // ---------------------------------------------------------------- leases of local endpoints

  /** A local endpoint's claim leaves the indexes consistent. */
  lemma LocalClaimKeepsConsistent(t: Tables, ports: State, p: Port)
    requires Consistent(t, ports) && Claim(ports, p, Local).Ok?
    ensures Consistent(t, Claim(ports, p, Local).value.0)
  {
    hide Counted, Hosted, Inverse, Sane;
    ClaimKeepsOk(ports, p, Local);
  }

  /** So does dropping any lease that is not a live translation lease. */
  lemma LocalDropKeepsConsistent(t: Tables, ports: State, l: Lease)
    requires Consistent(t, ports) && (Live(ports, l) ==> ports.entries[l.port].owner.Local?)
    ensures Sane(ports) && Consistent(t, Drop(ports, l))
  {
    hide Counted, Hosted, Inverse;
    DropKeepsOk(ports, l);
  }
}
