/** The NAT64 binding table of src/nat64/bindings.rs and src/nat64/bindings/icmp.rs. */
module Bindings {
  import opened Bytes
  import opened Results
  import opened Ports
  import opened BindingTables
  import opened Flows
  import opened BindingSweep
  import opened PortScan

  datatype Filtering = AddressDependent | EndpointIndependent

  lemma CountersAreTrue(t: Tables)
    requires Counted(t) && Hosted(t)
    ensures FlowOf(t).leases.Keys == t.bindings.Keys && |FlowOf(t).leases| == |t.bindings|
    ensures HostsOf(FlowOf(t).leases) == t.hosts.Keys && |HostsOf(FlowOf(t).leases)| == |t.hosts|
  {
    FlowKeys(t);
    var f := FlowOf(t);
    assert |f.leases| == |f.leases.Keys| && |t.bindings| == |t.bindings.Keys|;
    assert HostsOf(f.leases) == t.hosts.Keys by { HostsHaveKeys(t); }
    assert |t.hosts| == |t.hosts.Keys|;
  }

  lemma HostsHaveKeys(t: Tables)
    requires Hosted(t)
    ensures HostsOf(FlowOf(t).leases) == t.hosts.Keys
  {
    hide HostSessions;
    forall h | h in t.hosts
      ensures h in HostsOf(FlowOf(t).leases)
    {
      var k :| k in HostBindings(t.bindings, h);
    }
  }

  lemma HostCounters(t: Tables, h: Address)
    requires Counted(t) && Hosted(t)
    ensures HostLoad(t, h) == Load(|HostKeys(FlowOf(t).leases, h)|, |HostSessions(FlowOf(t).sessions, h)|)
  {
    assert HostKeys(FlowOf(t).leases, h) == HostBindings(t.bindings, h);
    hide HostSessions, HostBindings, SessionsOf;
    if h !in t.hosts { NoHost(t, h); }
  }

  class Table {
    const registry: Registry
    var bindings: map<Key, Binding>
    var reverse: map<Port, Key>
    var sessions: map<SessionKey, Session>
    var hosts: map<Address, Load>
    var next: Option<nat>
    var domain: Address
    var filtering: Filtering
    var udpSeconds: nat
    var icmpSeconds: nat

    ghost function View(): Tables
      reads this
    {
      Tables(bindings, reverse, sessions, hosts)
    }

    ghost function Current(): Flow
      reads this
    {
      FlowOf(View())
    }

    /** The indexes agree with each other and with the port registry. */
    ghost predicate Indexed()
      reads this, registry
    {
      Consistent(View(), registry.state)
    }

    ghost predicate Valid()
      reads this, registry
    {
      Indexed() && NextOk(next, sessions) && Capped(Current())
    }

    constructor (registry: Registry)
      requires registry.Valid() && Held(registry.state.entries, Translation) == {}
      ensures Valid() && this.registry == registry && Current() == Flow(map[], map[])
      ensures filtering == AddressDependent && udpSeconds == 300 && icmpSeconds == 60
    {
      this.registry := registry;
      bindings, reverse, sessions, hosts := map[], map[], map[], map[];
      next, domain, filtering, udpSeconds, icmpSeconds := None, 0, AddressDependent, 300, 60;
      new;
      EmptyIsConsistent(registry.state);
      assert View() == Empty;
    }

    /** Takes one session out of every index, and the binding with it when it was the last. */
    method Forget(sk: SessionKey)
      requires Indexed() && sk in sessions
      modifies this`bindings, this`reverse, this`sessions, this`hosts, registry
      ensures Indexed()
      ensures View() == WithoutSession(old(View()), sk)
      ensures registry.state == PortsWithout(old(View()), old(registry.state), sk)
    {
      hide Consistent, Counted, Inverse, Hosted, Leased, Sane, WithoutSession, Drop, PortsWithout;
      ForgetFacts(View(), registry.state, sk);
      ghost var rest := WithoutSession(View(), sk);
      var k := sk.key;
      var b := bindings[k].(sessions := bindings[k].sessions - 1);
      var host := hosts[k.host].(sessions := hosts[k.host].sessions - 1);
      if b.sessions == 0 {
        registry.Release(b.lease);
        host := host.(bindings := host.bindings - 1);
        bindings, reverse := bindings - {k}, reverse - {Port(k.protocol, b.port)};
      } else {
        bindings := bindings[k := b];
      }
      sessions := sessions - {sk};
      hosts := if host.bindings == 0 then hosts - {k.host} else hosts[k.host := host];
      assert View() == rest;
    }

    /** Drops every expired session; the lazy deadline makes no difference to the result. */
    method Expire(now: nat) returns (released: set<Port>)
      requires Valid()
      modifies this`bindings, this`reverse, this`sessions, this`hosts, this`next, registry
      ensures Valid()
      ensures Current() == Swept(old(Current()), now)
      ensures released == old(reverse).Keys - reverse.Keys
      ensures Locals(registry.state) == old(Locals(registry.state))
    {
      hide Consistent, Capped, Swept, NextOk, Sweeping, Locals, IsAged, Counted, FlowOf;
      ghost var t := View();
      SweepFacts(t, registry.state, next, now);
      if next.None? || next.value > now {
        return {};
      }
      var aged := AgeAll(sessions, now);
      AgedFacts(t, registry.state, aged, now);
      sessions := aged;
      assert View() == t.(sessions := aged);
      released := ForgetDue(t, aged, now);
      SweepDone(t, aged, now, View(), registry.state);
      next := Soonest(sessions);
    }

    /** The second loop of `expire`. */
    method ForgetDue(ghost t: Tables, aged: map<SessionKey, Session>, now: nat) returns (released: set<Port>)
      requires Indexed() && reverse == t.reverse
      requires Sweeping(t, aged, now, View(), set sk | sk in aged && aged[sk].expires <= now)
      modifies this`bindings, this`reverse, this`sessions, this`hosts, registry
      ensures Indexed() && Sweeping(t, aged, now, View(), {})
      ensures released == t.reverse.Keys - reverse.Keys
      ensures Locals(registry.state) == old(Locals(registry.state))
    {
      hide Consistent, WithoutSession, PortsWithout, Sweeping, Locals, FreedBy;
      released := {};
      var due := set sk | sk in aged && aged[sk].expires <= now;
      while due != {}
        invariant Indexed() && due <= aged.Keys && forall sk :: sk in due ==> aged[sk].expires <= now
        invariant Sweeping(t, aged, now, View(), due)
        invariant released == t.reverse.Keys - reverse.Keys && reverse.Keys <= t.reverse.Keys
        invariant Locals(registry.state) == old(Locals(registry.state))
        decreases |due|
      {
        var sk :| sk in due;
        SweepStep(t, registry.state, aged, now, View(), due, sk);
        FreedSoFar(t.reverse.Keys, reverse.Keys, FreedBy(bindings, sk));
        released := released + FreedBy(bindings, sk);
        Forget(sk);
        due := due - {sk};
      }
    }

    /** The admission check, on the counters. */
    method Admit(sk: SessionKey) returns (ok: bool)
      requires Valid()
      ensures ok == Admitted(Current(), sk)
    {
      hide Consistent, Capped, NextOk, FlowOf, HostsOf, HostKeys, HostSessions;
      AdmitFacts(View(), registry.state, sk);
      var host := if sk.key.host in hosts then hosts[sk.key.host] else Load(0, 0);
      var newBinding, newSession, newHost := sk.key !in bindings, sk !in sessions, sk.key.host !in hosts;
      var charged := |bindings| * 192 + |reverse| * 96 + |sessions| * 256 + |hosts| * 128;
      var bytes := One(newBinding) * 288 + One(newHost) * 128 + One(newSession) * 256;
      ok := !(charged + bytes > BYTE_CAP
              || (newBinding && (|bindings| >= 4096 || host.bindings >= 128))
              || (newSession && (|sessions| >= 8192 || host.sessions >= 256)));
    }

    /** Opens or renews a session of an existing binding and brings the deadline forward. */
    method Touch(sk: SessionKey, expires: nat)
      requires Valid() && sk.key in bindings && Admitted(Current(), sk)
      modifies this`bindings, this`sessions, this`hosts, this`next
      ensures Valid()
      ensures Current() == Opened(old(Current()), sk, Session(expires, None), old(bindings[sk.key].lease))
      ensures bindings.Keys == old(bindings.Keys) && bindings[sk.key].lease == old(bindings[sk.key].lease)
    {
      hide Consistent, Capped, NextOk, FlowOf, Opened, Admitted;
      ghost var t := View();
      var s := Session(expires, None);
      HostKnown(t, registry.state, sk.key);
      WithSessionKeepsConsistent(t, registry.state, sk, s);
      OpenedIsCapped(FlowOf(t), sk, s, t.bindings[sk.key].lease);
      TouchFlow(t, sk, s);
      TouchNext(t, next, sk, s);
      if sk !in sessions {
        var b, h := bindings[sk.key], hosts[sk.key.host];
        bindings := bindings[sk.key := b.(sessions := b.sessions + 1)];
        hosts := hosts[sk.key.host := h.(sessions := h.sessions + 1)];
      }
      sessions := sessions[sk := s];
      next := Some(if next.Some? then Min(next.value, expires) else expires);
      assert View() == WithSession(t, sk, s);
    }

    /** Gives a new key a port and its first session. With nothing reserved by the caller and
        generation numbers left, it cannot fail. */
    method Bind(sk: SessionKey, expires: nat, draws: seq<nat>, occupied: set<nat>) returns (r: Option<nat>)
      requires Valid() && sk.key !in bindings && Admitted(Current(), sk)
      requires sk.key.protocol in {1, 17} && sk.key.port <= U16_MAX && DrawsOk(sk.key.port, draws)
      modifies this`bindings, this`reverse, this`sessions, this`hosts, this`next, registry
      ensures Valid()
      ensures r.None? ==> Current() == old(Current()) && registry.state == old(registry.state)
      ensures r.Some? ==> sk.key in bindings && bindings[sk.key].lease.port == Port(sk.key.protocol, r.value)
                          && Current() == Opened(old(Current()), sk, Session(expires, None), bindings[sk.key].lease)
      ensures r.Some? ==> r.value <= U16_MAX && (sk.key.protocol == 1 || r.value != 0)
                          && Port(sk.key.protocol, r.value) !in old(registry.state.entries)
      ensures occupied == {} && old(registry.state.next) < U64_MAX ==> r.Some?
      ensures r.Some? && occupied == {} && sk.key.port >= 1024 ==> r.value >= 1024 && r.value % 2 == sk.key.port % 2
    {
      hide Consistent, Capped, NextOk, FlowOf, Opened, Admitted, DrawsOk, Taken, Sane;
      ghost var t, ports := View(), registry.state;
      BindFacts(t, ports, sk, occupied);
      var chosen := Allocate(sk.key.protocol, sk.key.port, draws, reverse.Keys + registry.state.entries.Keys, occupied);
      if chosen.None? {
        return None;
      }
      var p := Port(sk.key.protocol, chosen.value);
      var lease := registry.ClaimPort(p, Translation);
      if lease.Err? {
        return None;
      }
      Install(sk, expires, lease.value, ports);
      return chosen;
    }

    /** Enters a freshly leased port into every index. */
    method Install(sk: SessionKey, expires: nat, lease: Lease, ghost ports: State)
      requires Consistent(View(), ports) && NextOk(next, sessions) && Capped(Current())
      requires sk.key !in bindings && Admitted(Current(), sk) && lease.port.protocol == sk.key.protocol
      requires Claim(ports, lease.port, Translation) == Ok((registry.state, lease))
      modifies this`bindings, this`reverse, this`sessions, this`hosts, this`next
      ensures Valid()
      ensures sk.key in bindings && bindings[sk.key].lease == lease
      ensures Current() == Opened(old(Current()), sk, Session(expires, None), lease)
    {
      hide Consistent, Capped, NextOk, FlowOf, Opened, Admitted, Claim, WithBinding;
      ghost var t := View();
      var s := Session(expires, None);
      WithBindingKeepsConsistent(t, ports, sk, s, lease.port);
      BoundFlow(t, sk, s, lease);
      BoundNext(t, next, sk, s, lease);
      BoundShape(t, sk, s, lease);
      var host := if sk.key.host in hosts then hosts[sk.key.host] else Load(0, 0);
      bindings := bindings[sk.key := Binding(lease, lease.port.number, 1)];
      reverse := reverse[lease.port := sk.key];
      hosts := hosts[sk.key.host := Load(host.bindings + 1, host.sessions + 1)];
      sessions := sessions[sk := s];
      next := Some(if next.Some? then Min(next.value, expires) else expires);
      assert View() == WithBinding(t, sk, s, lease);
    }

    /** A packet from the stub: sweep, admit, reuse or create the binding, open or renew the
        session. Refusal leaves just the sweep. Once admitted it cannot fail for lack of a port
        or lease, unless the caller reserves ports or generation numbers run out. */
    method Outgoing(sk: SessionKey, expires: nat, now: nat, draws: seq<nat>, occupied: set<nat>) returns (r: Option<nat>)
      requires Valid() && sk.key.protocol in {1, 17} && sk.key.port <= U16_MAX && DrawsOk(sk.key.port, draws)
      modifies this`bindings, this`reverse, this`sessions, this`hosts, this`next, registry
      ensures Valid()
      ensures r.None? ==> Current() == Swept(old(Current()), now)
      ensures r.Some? ==> Admitted(Swept(old(Current()), now), sk)
      ensures r.Some? ==> Bound(Swept(old(Current()), now), sk, expires, r.value, Current())
      ensures Admitted(Swept(old(Current()), now), sk) && occupied == {} && old(registry.state.next) < U64_MAX ==> r.Some?
    {
      hide Consistent, Capped, NextOk, FlowOf, Opened, Admitted, DrawsOk, Swept, Locals;
      var _ := Expire(now);
      SameGeneration(old(registry.state), registry.state);
      ghost var f := Current();
      var ok := Admit(sk);
      if !ok {
        return None;
      }
      OpenedLease(f, sk, Session(expires, None));
      LeaseNumber(View(), registry.state, sk.key);
      if sk.key in bindings {
        var port := bindings[sk.key].port;
        Touch(sk, expires);
        return Some(port);
      }
      r := Bind(sk, expires, draws, occupied);
    }

    method UdpOut(source: Address, port: nat, remote: Remote, now: nat, draws: seq<nat>, occupied: set<nat>) returns (r: Option<nat>)
      requires Valid() && port <= U16_MAX && DrawsOk(port, draws)
      modifies this`bindings, this`reverse, this`sessions, this`hosts, this`next, registry
      ensures Valid()
      ensures var sk := SessionKey(Key(17, source, port, domain), remote);
              var f := Swept(old(Current()), now);
              && (r.None? ==> Current() == f)
              && (r.Some? ==> Admitted(f, sk) && Bound(f, sk, SatAdd(now, udpSeconds * 1000), r.value, Current()))
              && (Admitted(f, sk) && occupied == {} && old(registry.state.next) < U64_MAX ==> r.Some?)
    {
      hide Consistent, Capped, NextOk, FlowOf, Opened, Admitted, Swept, Bound, DrawsOk;
      r := Outgoing(SessionKey(Key(17, source, port, domain), remote), SatAdd(now, udpSeconds * 1000), now, draws, occupied);
    }

    method IcmpOut(source: Address, id: nat, remote: nat, now: nat, draws: seq<nat>) returns (r: Option<nat>)
      requires Valid() && id <= U16_MAX && DrawsOk(id, draws)
      modifies this`bindings, this`reverse, this`sessions, this`hosts, this`next, registry
      ensures Valid()
      ensures var sk := SessionKey(Key(1, source, id, domain), Remote(remote, 0));
              var f := Swept(old(Current()), now);
              && (r.None? ==> Current() == f)
              && (r.Some? ==> Admitted(f, sk) && Bound(f, sk, SatAdd(now, icmpSeconds * 1000), r.value, Current()))
              && (Admitted(f, sk) && old(registry.state.next) < U64_MAX ==> r.Some?)
    {
      hide Consistent, Capped, NextOk, FlowOf, Opened, Admitted, Swept, Bound, DrawsOk;
      r := Outgoing(SessionKey(Key(1, source, id, domain), Remote(remote, 0)), SatAdd(now, icmpSeconds * 1000), now, draws, {});
    }

    /** A UDP packet from outside: it reaches the owner of the port if the filter lets it in,
        and opens or renews the session. The result is an error only when admission refuses. */
    method UdpIn(port: nat, remote: Remote, now: nat) returns (r: Result<Option<(Address, nat)>, ()>)
      requires Valid()
      modifies this`bindings, this`reverse, this`sessions, this`hosts, this`next, this`domain, registry
      ensures Valid()
      ensures Received(Swept(old(Current()), now), filtering == AddressDependent, Port(17, port), remote,
                       SatAdd(now, udpSeconds * 1000), r, Current(), old(domain), domain)
    {
      hide Consistent, Capped, NextOk, FlowOf, Opened, Admitted, Swept, Locals;
      var _ := Expire(now);
      OwnerFacts(View(), registry.state, Port(17, port));
      if Port(17, port) !in reverse {
        return Ok(None);
      }
      var key := reverse[Port(17, port)];
      if filtering == AddressDependent && !(exists sk :: sk in sessions && sk.key == key && sk.remote.ip == remote.ip) {
        return Ok(None);
      }
      var sk := SessionKey(key, remote);
      var ok := Admit(sk);
      if !ok {
        return Err(());
      }
      Touch(sk, SatAdd(now, udpSeconds * 1000));
      domain := key.domain;
      return Ok(Some((key.host, key.port)));
    }

    /** The owner of a port, for error reports about a live session; nothing is renewed. */
    method ErrorIn(protocol: nat, port: nat, remote: Remote, now: nat) returns (r: Option<(Address, nat)>)
      requires Valid()
      ensures r.Some? <==> exists k :: Serves(Current(), k, Port(protocol, port)) && SessionKey(k, remote) in Current().sessions
                                       && Current().sessions[SessionKey(k, remote)].expires > now
      ensures r.Some? ==> exists k :: Serves(Current(), k, Port(protocol, port)) && r == Some((k.host, k.port))
    {
      hide Consistent, Capped, NextOk, FlowOf;
      OwnerFacts(View(), registry.state, Port(protocol, port));
      if Port(protocol, port) !in reverse {
        return None;
      }
      var key := reverse[Port(protocol, port)];
      var sk := SessionKey(key, remote);
      if sk !in sessions || sessions[sk].expires <= now {
        return None;
      }
      return Some((key.host, key.port));
    }

    /** An ICMP echo from outside: only an existing exact session lets it in. */
    method IcmpIn(id: nat, remote: nat, now: nat) returns (r: Option<(Address, nat)>)
      requires Valid()
      modifies this`bindings, this`reverse, this`sessions, this`hosts, this`next, this`domain, registry
      ensures Valid()
      ensures var f := Swept(old(Current()), now);
              if exists k :: Serves(f, k, Port(1, id)) && SessionKey(k, Remote(remote, 0)) in f.sessions then
                exists k :: Serves(f, k, Port(1, id)) && k.protocol == 1 && r == Some((k.host, k.port)) && domain == k.domain
                            && Current() == Opened(f, SessionKey(k, Remote(remote, 0)),
                                                   Session(SatAdd(now, icmpSeconds * 1000), None), f.leases[k])
              else r == None && Current() == f && domain == old(domain)
    {
      hide Consistent, Capped, NextOk, FlowOf, Opened, Admitted, Swept, Locals;
      var _ := Expire(now);
      ghost var f := Current();
      OwnerFacts(View(), registry.state, Port(1, id));
      if Port(1, id) !in reverse {
        return None;
      }
      var key := reverse[Port(1, id)];
      var sk := SessionKey(key, Remote(remote, 0));
      if sk !in sessions {
        return None;
      }
      LiveSessionAdmitted(f, sk);
      Touch(sk, SatAdd(now, icmpSeconds * 1000));
      domain := key.domain;
      return Some((key.host, key.port));
    }

    /** Keeps only what uses one of the given prefixes; the counters are rebuilt from scratch. */
    method RetainDomains(domains: set<Address>)
      requires Valid()
      modifies this`bindings, this`reverse, this`sessions, this`hosts, this`next, registry
      ensures Valid()
      ensures Current() == Filtered(old(Current()), domains)
      ensures Locals(registry.state) == old(Locals(registry.state))
    {
      hide Consistent, Capped, NextOk, FlowOf, Filtered, Sane, Locals, PortsKept, Kept, Counted, Without, HostsCounted;
      ghost var t, ports := View(), registry.state;
      RetainFacts(t, ports, domains);
      var gone := set k | k in bindings && k.domain !in domains;
      ReleaseAll(t, gone);
      KeptAfterRelease(t, ports, registry.state, domains, gone);
      KeepOnly(t, domains);
    }

    /** Every index cut down to the given prefixes. */
    method KeepOnly(ghost t: Tables, domains: set<Address>)
      requires View() == t && forall sk :: sk in sessions ==> sk.key in bindings
      modifies this`bindings, this`reverse, this`sessions, this`hosts, this`next
      ensures View() == Kept(t, domains) && NextOk(next, sessions)
    {
      hide Kept, HostsCounted, NextOk;
      sessions := map sk | sk in sessions && sk.key.domain in domains :: sessions[sk];
      bindings := map k | k in bindings && k.domain in domains :: bindings[k];
      reverse := map p | p in reverse && reverse[p].domain in domains :: reverse[p];
      hosts := RebuildHosts(bindings, sessions);
      KeptShape(t, domains, bindings, reverse, sessions, hosts);
      next := Soonest(sessions);
    }

    /** The leases of the given bindings are dropped. */
    method ReleaseAll(ghost t: Tables, gone: set<Key>)
      requires View() == t && Indexed() && gone <= bindings.Keys
      modifies registry
      ensures registry.Valid() && registry.state.entries == Without(old(registry.state.entries), t, gone)
      ensures registry.state.next == old(registry.state.next)
    {
      hide Consistent, Drop, Sane;
      ghost var ports := registry.state;
      var left := gone;
      ReleaseStarts(t, ports);
      while left != {}
        invariant left <= gone && registry.Valid() && registry.state.next == ports.next
        invariant registry.state.entries == Without(ports.entries, t, gone - left)
        decreases |left|
      {
        var k :| k in left;
        ReleaseStep(t, ports, registry.state, gone - left, k);
        registry.Release(bindings[k].lease);
        assert gone - (left - {k}) == gone - left + {k};
        left := left - {k};
      }
      assert gone - left == gone;
    }

    method Clear() returns (released: set<Port>)
      requires Valid()
      modifies this`bindings, this`reverse, this`sessions, this`hosts, this`next, registry
      ensures Valid() && Current() == Flow(map[], map[]) && next == None && hosts == map[]
      ensures released == old(reverse).Keys
      ensures Locals(registry.state) == old(Locals(registry.state))
    {
      hide Consistent, Locals;
      ghost var t, ports := View(), registry.state;
      released := reverse.Keys;
      ReleaseAll(t, bindings.Keys);
      ClearFacts(t, ports, registry.state);
      bindings, reverse, sessions, hosts, next := map[], map[], map[], map[], None;
      assert View() == Empty;
    }
  }

  lemma FreedSoFar(all: set<Port>, held: set<Port>, freed: set<Port>)
    requires freed <= held <= all
    ensures all - held + freed == all - (held - freed) && held - freed <= all
  {
  }

  /** A local endpoint claims a port of the shared registry: the table stays valid. */
  method ClaimLocal(table: Table, p: Port) returns (r: Result<Lease, Ports.Error>)
    requires table.Valid()
    modifies table.registry
    ensures table.Valid() && table.View() == old(table.View())
    ensures r.Ok? ==> && Live(table.registry.state, r.value) && p !in old(table.registry.state.entries)
                      && p in table.registry.state.entries && table.registry.state.entries[p].owner == Local
    ensures r.Err? ==> table.registry.state == old(table.registry.state)
  {
    hide Consistent, Capped, NextOk, FlowOf, Sane, Claim, Live;
    SaneFacts(table.View(), table.registry.state);
    LocalClaimFacts(table.View(), table.registry.state, p);
    r := table.registry.ClaimPort(p, Local);
  }

  lemma LocalClaimFacts(t: Tables, ports: State, p: Port)
    requires Consistent(t, ports)
    ensures Claim(ports, p, Local).Ok? ==>
              var (after, l) := Claim(ports, p, Local).value;
              Consistent(t, after) && Live(after, l) && p in after.entries && after.entries[p].owner == Local && p !in ports.entries
  {
    hide Consistent;
    if Claim(ports, p, Local).Ok? { LocalClaimKeepsConsistent(t, ports, p); }
  }

  /** It drops the lease again, now or after the entry went to someone else. */
  method ReleaseLocal(table: Table, l: Lease)
    requires table.Valid() && (Live(table.registry.state, l) ==> table.registry.state.entries[l.port].owner.Local?)
    modifies table.registry
    ensures table.Valid() && table.View() == old(table.View()) && !Live(table.registry.state, l)
  {
    hide Consistent, Capped, NextOk, FlowOf;
    SaneFacts(table.View(), table.registry.state);
    LocalDropKeepsConsistent(table.View(), table.registry.state, l);
    table.registry.Release(l);
  }

  lemma SaneFacts(t: Tables, ports: State)
    requires Consistent(t, ports)
    ensures Sane(ports)
  {
    hide Counted, Hosted, Inverse, Leased, Sane;
  }

  /** The registry's entries once the leases of `gone` are dropped. */
  ghost function Without(entries: map<Port, Holder>, t: Tables, gone: set<Key>): map<Port, Holder>
  {
    map p | p in entries && !(exists k :: k in gone && k in t.bindings && t.bindings[k].lease.port == p) :: entries[p]
  }

  lemma ReleaseStarts(t: Tables, ports: State)
    requires Consistent(t, ports)
    ensures Sane(ports) && ports.entries == Without(ports.entries, t, {})
  {
    hide Counted, Hosted, Inverse, Leased;
  }

  lemma ReleaseStep(t: Tables, ports: State, now: State, done: set<Key>, k: Key)
    requires Consistent(t, ports) && k in t.bindings && k !in done && done <= t.bindings.Keys
    requires Sane(now) && now.next == ports.next && now.entries == Without(ports.entries, t, done)
    ensures Drop(now, t.bindings[k].lease).entries == Without(ports.entries, t, done + {k})
    ensures Drop(now, t.bindings[k].lease).next == now.next
  {
    hide Consistent, Held, Sane;
    var l := t.bindings[k].lease;
    LeasesDiffer(t, ports, k);
    assert l.port in now.entries;
    assert now.entries - {l.port} == Without(ports.entries, t, done + {k});
  }

  lemma LeasesDiffer(t: Tables, ports: State, k: Key)
    requires Consistent(t, ports) && k in t.bindings
    ensures Live(ports, t.bindings[k].lease)
    ensures forall j :: j in t.bindings && j != k ==> t.bindings[j].lease.port != t.bindings[k].lease.port
  {
    hide Counted, Hosted, Held, Sane;
    forall j | j in t.bindings && j != k
      ensures t.bindings[j].lease.port != t.bindings[k].lease.port
    {
      assert t.reverse[PortOf(j, t.bindings[j])] == j;
      assert t.reverse[PortOf(k, t.bindings[k])] == k;
    }
  }

  lemma RetainFacts(t: Tables, ports: State, domains: set<Address>)
    requires Consistent(t, ports) && Capped(FlowOf(t))
    ensures Capped(Filtered(FlowOf(t), domains)) && Counted(t) && Sane(ports)
    ensures FlowOf(Kept(t, domains)) == Filtered(FlowOf(t), domains)
    ensures forall sk :: sk in t.sessions ==> sk.key in t.bindings
  {
    hide Capped, Hosted, Inverse, Leased, FlowOf, Kept, Filtered, SessionsOf;
    FilteredIsCapped(FlowOf(t), domains);
    KeptFlow(t, domains);
  }

  lemma KeptFlow(t: Tables, domains: set<Address>)
    ensures FlowOf(Kept(t, domains)) == Filtered(FlowOf(t), domains)
  {
    hide HostBindings, HostSessions;
    assert FlowOf(Kept(t, domains)).leases == Filtered(FlowOf(t), domains).leases;
  }

  lemma KeptAfterRelease(t: Tables, ports: State, ports': State, domains: set<Address>, gone: set<Key>)
    requires Consistent(t, ports) && Sane(ports') && gone == set k | k in t.bindings && k.domain !in domains
    requires ports'.entries == Without(ports.entries, t, gone) && ports'.next == ports.next
    ensures Consistent(Kept(t, domains), ports') && Locals(ports') == Locals(ports)
  {
    hide Counted, Hosted, Held, Kept;
    ReleasedAreReverse(t, ports, domains, gone);
    KeptKeepsConsistent(t, ports, ports', domains);
    LocalsKept(t, ports, ports', domains);
  }

  lemma ReleasedAreReverse(t: Tables, ports: State, domains: set<Address>, gone: set<Key>)
    requires Inverse(t) && Leased(t, ports) && gone == set k | k in t.bindings && k.domain !in domains
    ensures Without(ports.entries, t, gone) == PortsKept(t, ports, domains)
  {
    forall p | p in ports.entries
      ensures (exists k :: k in gone && k in t.bindings && t.bindings[k].lease.port == p)
              <==> (p in t.reverse && t.reverse[p].domain !in domains)
    {
      if k :| k in gone && k in t.bindings && t.bindings[k].lease.port == p {
        assert t.reverse[PortOf(k, t.bindings[k])] == k;
      }
      if p in t.reverse && t.reverse[p].domain !in domains {
        assert t.reverse[p] in gone && t.bindings[t.reverse[p]].lease.port == p;
      }
    }
  }

  lemma LocalsKept(t: Tables, ports: State, ports': State, domains: set<Address>)
    requires Inverse(t) && Leased(t, ports) && ports'.next == ports.next && ports'.entries == PortsKept(t, ports, domains)
    ensures Locals(ports') == Locals(ports)
  {
    forall p
      ensures p in t.reverse ==> p in ports.entries && ports.entries[p].owner.Translation?
    {
      if p in t.reverse { assert t.bindings[t.reverse[p]].lease.port == p; }
    }
    assert Locals(ports').0 == Locals(ports).0;
  }

  lemma ClearFacts(t: Tables, ports: State, ports': State)
    requires Consistent(t, ports) && Sane(ports') && ports'.next == ports.next
    requires ports'.entries == Without(ports.entries, t, t.bindings.Keys)
    ensures Consistent(Empty, ports') && Capped(FlowOf(Empty)) && FlowOf(Empty) == Flow(map[], map[])
    ensures Locals(ports') == Locals(ports)
  {
    hide Counted, Hosted;
    ReleasedAreReverse(t, ports, {}, t.bindings.Keys);
    LocalsKept(t, ports, ports', {});
    assert Held(ports'.entries, Translation) == {};
    EmptyIsConsistent(ports');
  }

  lemma KeptShape(t: Tables, domains: set<Address>, bindings: map<Key, Binding>, reverse: map<Port, Key>,
                  sessions: map<SessionKey, Session>, hosts: map<Address, Load>)
    requires bindings == map k | k in t.bindings && k.domain in domains :: t.bindings[k]
    requires sessions == map sk | sk in t.sessions && sk.key.domain in domains :: t.sessions[sk]
    requires reverse == map p | p in t.reverse && t.reverse[p].domain in domains :: t.reverse[p]
    requires HostsCounted(bindings, sessions, hosts)
    ensures Tables(bindings, reverse, sessions, hosts) == Kept(t, domains)
  {
    hide HostBindings, HostSessions;
    assert hosts == Kept(t, domains).hosts;
  }

  predicate HostsCounted(bindings: map<Key, Binding>, sessions: map<SessionKey, Session>, hosts: map<Address, Load>)
  {
    && (forall k :: k in bindings ==> k.host in hosts)
    && (forall h :: h in hosts ==> (exists k :: k in bindings && k.host == h)
                                   && hosts[h] == Load(|HostBindings(bindings, h)|, |HostSessions(sessions, h)|))
  }

  /** Host counters from scratch, one key and then one session at a time. */
  method RebuildHosts(bindings: map<Key, Binding>, sessions: map<SessionKey, Session>) returns (hosts: map<Address, Load>)
    requires forall sk :: sk in sessions ==> sk.key in bindings
    ensures HostsCounted(bindings, sessions, hosts)
  {
    hide Among, AmongSessions, HostsCounted;
    hosts := CountBindings(bindings.Keys);
    hosts := CountSessions(bindings.Keys, sessions.Keys, hosts);
    RebuiltIsCounted(bindings, sessions, hosts);
  }

  method CountBindings(all: set<Key>) returns (hosts: map<Address, Load>)
    ensures forall h :: h in hosts <==> Among(all, h) != {}
    ensures forall h :: h in hosts ==> hosts[h] == Load(|Among(all, h)|, 0)
  {
    hide Among;
    hosts := map[];
    var keys := all;
    NoneAmong(all);
    while keys != {}
      invariant keys <= all
      invariant forall h :: h in hosts <==> Among(all - keys, h) != {}
      invariant forall h :: h in hosts ==> hosts[h] == Load(|Among(all - keys, h)|, 0)
      decreases |keys|
    {
      var k :| k in keys;
      AmongGrows(all, keys, k);
      var h := if k.host in hosts then hosts[k.host] else Load(0, 0);
      hosts := hosts[k.host := h.(bindings := h.bindings + 1)];
      keys := keys - {k};
    }
    assert all - keys == all;
  }

  method CountSessions(keys: set<Key>, all: set<SessionKey>, counted: map<Address, Load>) returns (hosts: map<Address, Load>)
    requires forall h :: h in counted <==> Among(keys, h) != {}
    requires forall h :: h in counted ==> counted[h] == Load(|Among(keys, h)|, 0)
    requires forall sk :: sk in all ==> sk.key in keys
    ensures hosts.Keys == counted.Keys
    ensures forall h :: h in hosts ==> hosts[h] == Load(|Among(keys, h)|, |AmongSessions(all, h)|)
  {
    hide Among, AmongSessions;
    hosts := counted;
    var todo := all;
    NoSessionsAmong(all);
    while todo != {}
      invariant todo <= all && hosts.Keys == counted.Keys
      invariant forall h :: h in hosts ==> hosts[h] == Load(|Among(keys, h)|, |AmongSessions(all - todo, h)|)
      decreases |todo|
    {
      var sk :| sk in todo;
      AmongSessionsGrows(all, todo, sk);
      IsAmong(keys, sk.key);
      var h := hosts[sk.key.host];
      hosts := hosts[sk.key.host := h.(sessions := h.sessions + 1)];
      todo := todo - {sk};
    }
    assert all - todo == all;
  }

  lemma NoneAmong(all: set<Key>)
    ensures forall h :: Among(all - all, h) == {}
  {
  }

  lemma NoSessionsAmong(all: set<SessionKey>)
    ensures forall h :: AmongSessions(all - all, h) == {}
  {
  }

  lemma IsAmong(keys: set<Key>, k: Key)
    requires k in keys
    ensures Among(keys, k.host) != {}
  {
    assert k in Among(keys, k.host);
  }

  function Among(keys: set<Key>, h: Address): set<Key> { set k | k in keys && k.host == h }

  function AmongSessions(keys: set<SessionKey>, h: Address): set<SessionKey> { set sk | sk in keys && sk.key.host == h }

  lemma AmongGrows(all: set<Key>, left: set<Key>, k: Key)
    requires k in left && left <= all
    ensures forall h :: |Among(all - (left - {k}), h)| == |Among(all - left, h)| + One(h == k.host)
    ensures forall h :: Among(all - (left - {k}), h) != {} <==> Among(all - left, h) != {} || h == k.host
  {
    forall h
      ensures |Among(all - (left - {k}), h)| == |Among(all - left, h)| + One(h == k.host)
      ensures Among(all - (left - {k}), h) != {} <==> Among(all - left, h) != {} || h == k.host
    {
      if h == k.host {
        assert Among(all - (left - {k}), h) == Among(all - left, h) + {k};
      } else {
        assert Among(all - (left - {k}), h) == Among(all - left, h);
      }
    }
  }

  lemma AmongSessionsGrows(all: set<SessionKey>, left: set<SessionKey>, sk: SessionKey)
    requires sk in left && left <= all
    ensures forall h :: |AmongSessions(all - (left - {sk}), h)| == |AmongSessions(all - left, h)| + One(h == sk.key.host)
  {
    forall h
      ensures |AmongSessions(all - (left - {sk}), h)| == |AmongSessions(all - left, h)| + One(h == sk.key.host)
    {
      if h == sk.key.host {
        assert AmongSessions(all - (left - {sk}), h) == AmongSessions(all - left, h) + {sk};
      } else {
        assert AmongSessions(all - (left - {sk}), h) == AmongSessions(all - left, h);
      }
    }
  }

  lemma RebuiltIsCounted(bindings: map<Key, Binding>, sessions: map<SessionKey, Session>, hosts: map<Address, Load>)
    requires forall h :: h in hosts <==> Among(bindings.Keys, h) != {}
    requires forall h :: h in hosts ==> hosts[h] == Load(|Among(bindings.Keys, h)|, |AmongSessions(sessions.Keys, h)|)
    ensures HostsCounted(bindings, sessions, hosts)
  {
    assert forall h :: Among(bindings.Keys, h) == HostBindings(bindings, h);
    assert forall h :: AmongSessions(sessions.Keys, h) == HostSessions(sessions, h);
    forall k | k in bindings
      ensures k.host in hosts
    {
      assert k in Among(bindings.Keys, k.host);
    }
    forall h | h in hosts
      ensures exists k :: k in bindings && k.host == h
    {
      var k :| k in Among(bindings.Keys, h);
    }
  }

  /** `k` owns the external port `p`. */
  ghost predicate Serves(f: Flow, k: Key, p: Port) { k in f.leases && f.leases[k].port == p }

  ghost predicate FilterPasses(f: Flow, addressDependent: bool, k: Key, remote: Remote)
  {
    addressDependent ==> exists sk :: sk in f.sessions && sk.key == k && sk.remote.ip == remote.ip
  }

  /** The outcome of an incoming UDP packet, in terms of the swept state `f`. */
  ghost predicate Received(f: Flow, addressDependent: bool, p: Port, remote: Remote, expires: nat,
                           r: Result<Option<(Address, nat)>, ()>, g: Flow, domain: Address, domain': Address)
  {
    if exists k :: Serves(f, k, p) then
      exists k :: Serves(f, k, p) &&
        if !FilterPasses(f, addressDependent, k, remote) then r == Ok(None) && g == f && domain' == domain
        else if !Admitted(f, SessionKey(k, remote)) then r == Err(()) && g == f && domain' == domain
        else r == Ok(Some((k.host, k.port))) && domain' == k.domain
             && g == Opened(f, SessionKey(k, remote), Session(expires, None), f.leases[k])
    else r == Ok(None) && g == f && domain' == domain
  }

  /** The reverse index names the one owner of a port. */
  lemma OwnerFacts(t: Tables, ports: State, p: Port)
    requires Consistent(t, ports)
    ensures FlowOf(t).sessions == t.sessions
    ensures p in t.reverse ==> t.reverse[p] in t.bindings && Serves(FlowOf(t), t.reverse[p], p)
                               && FlowOf(t).leases[t.reverse[p]] == t.bindings[t.reverse[p]].lease
    ensures forall k :: Serves(FlowOf(t), k, p) ==> p in t.reverse && k == t.reverse[p]
    ensures p in t.reverse ==> t.reverse[p].protocol == p.protocol
  {
    hide Counted, Hosted, Sane;
    forall k | Serves(FlowOf(t), k, p)
      ensures p in t.reverse && k == t.reverse[p]
    {
      assert PortOf(k, t.bindings[k]) == p;
    }
  }

  /** `g` is `f` with the session open, over the port the key already had or a new one. */
  ghost predicate Bound(f: Flow, sk: SessionKey, expires: nat, port: nat, g: Flow)
  {
    && sk.key in g.leases && g.leases[sk.key].port == Port(sk.key.protocol, port)
    && g == Opened(f, sk, Session(expires, None), g.leases[sk.key])
    && (sk.key in f.leases ==> g.leases[sk.key] == f.leases[sk.key])
    && (sk.key !in f.leases ==> port <= U16_MAX && (sk.key.protocol == 17 ==> port != 0))
  }

  lemma OpenedLease(f: Flow, sk: SessionKey, s: Session)
    ensures forall l :: Opened(f, sk, s, l).leases == f.leases[sk.key := l]
  {
  }

  lemma LeaseNumber(t: Tables, ports: State, k: Key)
    requires Consistent(t, ports)
    ensures FlowOf(t).leases.Keys == t.bindings.Keys
    ensures k in t.bindings ==>
              FlowOf(t).leases[k] == t.bindings[k].lease && t.bindings[k].lease.port == Port(k.protocol, t.bindings[k].port)
  {
    hide Counted, Hosted, Inverse, Sane;
  }

  lemma SameGeneration(s: State, u: State)
    requires Locals(s) == Locals(u)
    ensures s.next == u.next
  {
  }

  /** Everything `Bind` relies on: few numbers are taken, a lease is left. */
  lemma BindFacts(t: Tables, ports: State, sk: SessionKey, occupied: set<nat>)
    requires Consistent(t, ports) && sk.key !in t.bindings && Admitted(FlowOf(t), sk)
    ensures Sane(ports) && ports.translation < TRANSLATION_CAP
    ensures occupied == {} ==> |Taken(sk.key.protocol, t.reverse.Keys + ports.entries.Keys, occupied)| < SCAN_LIMIT
  {
    hide Counted, Hosted, Inverse, Leased, Sane, Held, Taken, FlowOf, HostsOf, HostKeys, HostSessions;
    AsManyLeases(t, ports);
    BindingsCount(t);
    FewTaken(t, ports, sk.key.protocol);
  }

  /** Everything busy is in the registry, and that is small. */
  lemma FewTaken(t: Tables, ports: State, protocol: nat)
    requires Inverse(t) && Leased(t, ports) && Sane(ports)
    ensures |Taken(protocol, t.reverse.Keys + ports.entries.Keys, {})| < SCAN_LIMIT
  {
    hide Inverse, Leased, Sane, Held, Taken;
    FewEntries(ports);
    BusyIsEntries(t, ports);
    assert |ports.entries| == |ports.entries.Keys|;
    NumbersAreFew(protocol, ports.entries.Keys);
    assert t.reverse.Keys + ports.entries.Keys == ports.entries.Keys;
  }

  lemma BindingsCount(t: Tables)
    ensures FlowOf(t).leases.Keys == t.bindings.Keys && |FlowOf(t).leases| == |t.bindings|
  {
    assert |FlowOf(t).leases| == |FlowOf(t).leases.Keys| && |t.bindings| == |t.bindings.Keys|;
  }

  lemma BusyIsEntries(t: Tables, ports: State)
    requires Inverse(t) && Leased(t, ports)
    ensures t.reverse.Keys <= ports.entries.Keys
  {
    forall p | p in t.reverse
      ensures p in ports.entries
    {
      ReverseIsTaken(t, ports, p);
    }
  }

  lemma {:induction false} NumbersAreFew(protocol: nat, busy: set<Port>)
    ensures |Taken(protocol, busy, {})| <= |busy|
    decreases |busy|
  {
    var taken := Taken(protocol, busy, {});
    if busy == {} {
      assert taken == {};
    } else {
      var p :| p in busy;
      NumbersAreFew(protocol, busy - {p});
      var rest := Taken(protocol, busy - {p}, {});
      assert taken <= rest + {p.number} by {
        forall n | n in taken
          ensures n in rest + {p.number}
        {
          var q :| q in busy && q.protocol == protocol && q.number == n;
          if q != p { assert q in busy - {p}; }
        }
      }
      SubsetSize(taken, rest + {p.number});
    }
  }

  lemma BoundFlow(t: Tables, sk: SessionKey, s: Session, l: Lease)
    requires Capped(FlowOf(t)) && Admitted(FlowOf(t), sk)
    ensures FlowOf(WithBinding(t, sk, s, l)) == Opened(FlowOf(t), sk, s, l)
    ensures Capped(FlowOf(WithBinding(t, sk, s, l)))
  {
    hide Capped, Admitted, FlowOf, Opened, WithBinding;
    OpenedIsCapped(FlowOf(t), sk, s, l);
    BoundLeases(t, sk, s, l);
  }

  lemma BoundLeases(t: Tables, sk: SessionKey, s: Session, l: Lease)
    ensures FlowOf(WithBinding(t, sk, s, l)) == Opened(FlowOf(t), sk, s, l)
  {
    hide WithBinding, HostLoad;
    BoundShape(t, sk, s, l);
    assert FlowOf(WithBinding(t, sk, s, l)).leases == Opened(FlowOf(t), sk, s, l).leases;
  }

  lemma BoundNext(t: Tables, next: Option<nat>, sk: SessionKey, s: Session, l: Lease)
    requires NextOk(next, t.sessions)
    ensures NextOk(Some(if next.Some? then Min(next.value, s.expires) else s.expires), WithBinding(t, sk, s, l).sessions)
  {
  }

  lemma BoundShape(t: Tables, sk: SessionKey, s: Session, l: Lease)
    ensures var h := HostLoad(t, sk.key.host); var u := WithBinding(t, sk, s, l);
            && u.bindings == t.bindings[sk.key := Binding(l, l.port.number, 1)]
            && u.reverse == t.reverse[l.port := sk.key] && u.sessions == t.sessions[sk := s]
            && u.hosts == t.hosts[sk.key.host := Load(h.bindings + 1, h.sessions + 1)]
  {
  }

  lemma AdmitFacts(t: Tables, ports: State, sk: SessionKey)
    requires Consistent(t, ports)
    ensures |FlowOf(t).leases| == |t.bindings| == |t.reverse| && FlowOf(t).sessions == t.sessions
    ensures sk.key in FlowOf(t).leases <==> sk.key in t.bindings
    ensures |HostsOf(FlowOf(t).leases)| == |t.hosts|
    ensures sk.key.host in HostsOf(FlowOf(t).leases) <==> sk.key.host in t.hosts
    ensures HostLoad(t, sk.key.host)
            == Load(|HostKeys(FlowOf(t).leases, sk.key.host)|, |HostSessions(t.sessions, sk.key.host)|)
  {
    hide HostsOf, HostKeys, HostSessions, SessionsOf, HostBindings;
    AsManyLeases(t, ports);
    CountersAreTrue(t);
    HostCounters(t, sk.key.host);
  }

  lemma HostKnown(t: Tables, ports: State, k: Key)
    requires Consistent(t, ports) && k in t.bindings
    ensures k.host in t.hosts
  {
  }

  lemma TouchFlow(t: Tables, sk: SessionKey, s: Session)
    requires sk.key in t.bindings && sk.key.host in t.hosts
    ensures FlowOf(WithSession(t, sk, s)) == Opened(FlowOf(t), sk, s, t.bindings[sk.key].lease)
  {
    assert FlowOf(WithSession(t, sk, s)).leases == Opened(FlowOf(t), sk, s, t.bindings[sk.key].lease).leases;
  }

  lemma TouchNext(t: Tables, next: Option<nat>, sk: SessionKey, s: Session)
    requires sk.key in t.bindings && sk.key.host in t.hosts && NextOk(next, t.sessions)
    ensures NextOk(Some(if next.Some? then Min(next.value, s.expires) else s.expires), WithSession(t, sk, s).sessions)
  {
  }

  lemma SweepFacts(t: Tables, ports: State, next: Option<nat>, now: nat)
    requires Consistent(t, ports) && NextOk(next, t.sessions) && Capped(FlowOf(t))
    ensures Counted(t) && Capped(Swept(FlowOf(t), now))
    ensures next.None? || next.value > now ==> Swept(FlowOf(t), now) == FlowOf(t)
  {
    hide Swept, Capped;
    SweptIsCapped(FlowOf(t), now);
    if next.None? || next.value > now { NothingDue(t, next, now); }
  }

  lemma AgedFacts(t: Tables, ports: State, aged: map<SessionKey, Session>, now: nat)
    requires Consistent(t, ports) && IsAged(t.sessions, aged, now)
    ensures Consistent(t.(sessions := aged), ports)
    ensures Sweeping(t, aged, now, t.(sessions := aged), set sk | sk in aged && aged[sk].expires <= now)
  {
    hide Consistent, Sweeping;
    AgedIsConsistent(t, ports, aged);
    SweepStarts(t, aged, now, set sk | sk in aged && aged[sk].expires <= now);
  }

  lemma SweepDone(t: Tables, aged: map<SessionKey, Session>, now: nat, u: Tables, ports: State)
    requires Counted(t) && Consistent(u, ports) && IsAged(t.sessions, aged, now) && Sweeping(t, aged, now, u, {})
    ensures FlowOf(u) == Swept(FlowOf(t), now)
  {
    hide Sweeping, IsAged;
    SweepEnds(t, aged, now, u);
  }

  lemma EmptyIsConsistent(ports: State)
    requires Sane(ports) && Held(ports.entries, Translation) == {}
    ensures Consistent(Empty, ports) && Capped(FlowOf(Empty))
  {
    forall p | p in ports.entries
      ensures !ports.entries[p].owner.Translation?
    {
      assert p in Held(ports.entries, ports.entries[p].owner);
    }
  }
}
