/** The UDP path of the NAT64 translator, src/nat64/translate.rs, over parsed IP headers. */
module Translator {
  import opened Bytes
  import opened Results
  import opened Ports
  import opened BindingTables
  import opened Flows
  import opened Bindings
  import opened FlowRuns
  import opened BindingSweep
  import opened PortScan
  import opened UdpSegment

  /** 2^32, the number of IPv4 addresses below one /96 prefix. */
  const V4: nat := 0x1_0000_0000

  /** A parsed IP packet that carries one whole UDP segment. */
  datatype Packet = Packet(source: nat, destination: nat, trafficClass: nat, hops: nat, dontFragment: bool, payload: seq<byte>)

  datatype Prefix = Prefix(address: nat, length: nat)

  datatype Sent = Dropped | Icmp(kind: nat, code: nat, value: nat) | ToAil(p: Packet) | ToStub(p: Packet)

  /** The packet goes on to the binding table, or the result is already known. */
  datatype Verdict = Pass | Stop(r: Result<Sent, ()>)

  predicate Unicast4(a: nat) { 0 < a / 0x100_0000 < 224 && a / 0x100_0000 != 127 }

  predicate Routable(a: nat)
  {
    a >= 2 && a / 0x40_0000_0000_0000_0000_0000_0000_0000 != 0x3fa && a / 0x100_0000_0000_0000_0000_0000_0000_0000 != 0xff
  }

  /** `usable`, for the /96 prefixes the translator takes. */
  predicate Usable(p: Prefix)
  {
    p.length == 96 && Routable(p.address) && p.address / V4 != 0xffff && p.address % V4 == 0
  }

  predicate Contains(prefix: nat, a: nat) { a / V4 == prefix / V4 }

  function DomainOf(a: nat): nat { a - a % V4 }

  /** The low 32 bits of the domain are zero, so this is the source's bitwise or. */
  function Synthesize(domain: nat, ipv4: nat): nat
    requires domain % V4 == 0 && ipv4 < V4
  {
    domain + ipv4
  }

  /** An address below a prefix is that prefix's synthesis of its own last 32 bits. */
  lemma SynthesizeRoundTrip(a: nat, prefix: nat)
    requires prefix % V4 == 0
    ensures Contains(prefix, a) <==> prefix == DomainOf(a)
    ensures DomainOf(a) % V4 == 0 && Synthesize(DomainOf(a), a % V4) == a
  {
  }

  /** Bindings use /96 prefixes and 16-bit external ports. */
  ghost predicate Aligned(f: Flow)
  {
    forall k :: k in f.leases ==> k.domain % V4 == 0 && f.leases[k].port.number <= U16_MAX
  }

  /** The packet is for one of the prefixes, and from elsewhere: from here on that prefix is the
      current domain, whatever is found later. */
  predicate ForUs(prefixes: seq<nat>, ipv4: Option<nat>, p: Packet, allowed: bool)
  {
    && |p.payload| <= 65515 && ipv4.Some? && allowed
    && !(exists d :: d in prefixes && Contains(d, p.source)) && exists d :: d in prefixes && Contains(d, p.destination)
  }

  /** Everything `outbound_datagram` checks before it turns to the binding table. */
  function ScreenOut(prefixes: seq<nat>, ipv4: Option<nat>, mtu: nat, p: Packet, allowed: bool, reachable: bool,
                     fragmented: bool): (v: Verdict)
    ensures v.Pass? ==> ForUs(prefixes, ipv4, p, allowed) && WellFormed(p.payload) && p.hops > 1
  {
    var dest := p.destination % V4;
    if |p.payload| > 65515 then Stop(Err(()))
    else if !ForUs(prefixes, ipv4, p, allowed) then Stop(Ok(Dropped))
    else if !Unicast4(dest) || (dest != ipv4.value && !reachable) then Stop(Ok(Dropped))
    else if !WellFormed(p.payload) || !HasChecksum(p.payload) || Checksum6(p.source, p.destination, p.payload) != 0 then Stop(Err(()))
    else if p.hops <= 1 then Stop(Ok(Icmp(3, 0, 0)))
    else if |p.payload| + 20 > mtu && |p.payload| + 20 > 1260 && dest != ipv4.value && !fragmented then
      Stop(Ok(Icmp(2, 0, if mtu + 20 > 1280 then mtu + 20 else 1280)))
    else Pass
  }

  /** Everything `inbound` checks first. `known` tells whether the table has a live session for
      an error report; `routed` that an unexpired source route is present. */
  function ScreenIn(ipv4: Option<nat>, mtu: nat, p: Packet, routed: bool, known: bool): (v: Verdict)
    ensures v.Pass? ==> ipv4 == Some(p.destination) && WellFormed(p.payload) && p.hops > 1
  {
    var large := p.dontFragment && |p.payload| + 40 > mtu;
    if !WellFormed(p.payload) || (HasChecksum(p.payload) && Checksum4(p.source, p.destination, p.payload) != 0) then Stop(Err(()))
    else if ipv4 != Some(p.destination) || !Unicast4(p.source) then Stop(Ok(Dropped))
    else if p.hops <= 1 || routed || large then
      if !known then Stop(Ok(Dropped))
      else if p.hops <= 1 then Stop(Ok(Icmp(11, 0, 0)))
      else if routed then Stop(Ok(Icmp(3, 5, 0)))
      else Stop(Ok(Icmp(3, 4, if mtu >= 88 then mtu - 20 else 68)))
    else Pass
  }

  // ---------------------------------------------------------------- the same checks, in plain ranges

  predicate Below(prefixes: seq<nat>, a: nat) { exists d :: d in prefixes && d <= a < d + V4 }

  /** 1.0.0.0 to 223.255.255.255 without 127.0.0.0/8. */
  predicate HostAddress(a: nat) { 0x0100_0000 <= a < 0xe000_0000 && !(0x7f00_0000 <= a < 0x8000_0000) }

  predicate GoodSegment(b: seq<byte>)
  {
    |b| >= 8 && b[4] as int * 256 + b[5] == |b| && (b[2] != 0 || b[3] != 0)
  }

  /** What becomes of a packet from the stub before the table is asked: every check in order, with
      its answer. */
  predicate JudgedOut(prefixes: seq<nat>, ipv4: Option<nat>, mtu: nat, p: Packet, allowed: bool, reachable: bool,
                      fragmented: bool, v: Verdict)
  {
    var dest, size := p.destination % V4, |p.payload| + 20;
    if size > 65535 then v == Stop(Err(()))
    else if ipv4.None? || !allowed || Below(prefixes, p.source) || !Below(prefixes, p.destination) then v == Stop(Ok(Dropped))
    else if !HostAddress(dest) || !(dest == ipv4.value || reachable) then v == Stop(Ok(Dropped))
    else if !GoodSegment(p.payload) || (p.payload[6] == 0 && p.payload[7] == 0)
            || Checksum6(p.source, p.destination, p.payload) != 0 then v == Stop(Err(()))
    else if p.hops < 2 then v == Stop(Ok(Icmp(3, 0, 0)))
    else if size <= mtu || size <= 1260 || dest == ipv4.value || fragmented then v == Pass
    else v == Stop(Ok(Icmp(2, 0, if mtu >= 1260 then mtu + 20 else 1280)))
  }

  /** And of a packet from the IPv4 side. */
  predicate JudgedIn(ipv4: Option<nat>, mtu: nat, p: Packet, routed: bool, known: bool, v: Verdict)
  {
    var fits := !p.dontFragment || |p.payload| + 40 <= mtu;
    if !GoodSegment(p.payload) then v == Stop(Err(()))
    else if (p.payload[6] != 0 || p.payload[7] != 0) && Checksum4(p.source, p.destination, p.payload) != 0 then v == Stop(Err(()))
    else if ipv4 != Some(p.destination) || !HostAddress(p.source) then v == Stop(Ok(Dropped))
    else if p.hops >= 2 && !routed && fits then v == Pass
    else if !known then v == Stop(Ok(Dropped))
    else if p.hops < 2 then v == Stop(Ok(Icmp(11, 0, 0)))
    else if routed then v == Stop(Ok(Icmp(3, 5, 0)))
    else v == Stop(Ok(Icmp(3, 4, if mtu > 88 then mtu - 20 else 68)))
  }

  lemma HostAddressExactly(a: nat)
    ensures Unicast4(a) <==> HostAddress(a)
  {
  }

  lemma ContainsExactly(d: nat, a: nat)
    requires d % V4 == 0
    ensures Contains(d, a) <==> d <= a < d + V4
  {
  }

  lemma BelowExactly(prefixes: seq<nat>, a: nat)
    requires forall d :: d in prefixes ==> d % V4 == 0
    ensures (exists d :: d in prefixes && Contains(d, a)) <==> Below(prefixes, a)
  {
    forall d | d in prefixes
      ensures Contains(d, a) <==> d <= a < d + V4
    {
      ContainsExactly(d, a);
    }
  }

  lemma SegmentExactly(b: seq<byte>)
    ensures WellFormed(b) <==> GoodSegment(b)
    ensures |b| >= 8 ==> (HasChecksum(b) <==> b[6] != 0 || b[7] != 0)
  {
  }

  /** The outbound checks are these, with these answers. */
  lemma OutboundChecks(prefixes: seq<nat>, ipv4: Option<nat>, mtu: nat, p: Packet, allowed: bool, reachable: bool, fragmented: bool)
    requires forall d :: d in prefixes ==> d % V4 == 0
    ensures JudgedOut(prefixes, ipv4, mtu, p, allowed, reachable, fragmented,
                      ScreenOut(prefixes, ipv4, mtu, p, allowed, reachable, fragmented))
  {
    hide Unicast4, HostAddress, Contains, Below, WellFormed, GoodSegment, HasChecksum, Checksum6;
    BelowExactly(prefixes, p.source);
    BelowExactly(prefixes, p.destination);
    HostAddressExactly(p.destination % V4);
    SegmentExactly(p.payload);
    SegmentLength(p.payload);
  }

  lemma SegmentLength(b: seq<byte>)
    ensures GoodSegment(b) ==> |b| >= 8
  {
  }

  lemma InboundChecks(ipv4: Option<nat>, mtu: nat, p: Packet, routed: bool, known: bool)
    ensures JudgedIn(ipv4, mtu, p, routed, known, ScreenIn(ipv4, mtu, p, routed, known))
  {
    hide Unicast4, HostAddress, WellFormed, GoodSegment, HasChecksum, Checksum4;
    HostAddressExactly(p.source);
    SegmentExactly(p.payload);
    SegmentLength(p.payload);
  }

  /** The /96 prefixes the translator takes: not unspecified or loopback, not link-local, not
      multicast, not IPv4-mapped. */
  lemma UsableExactly(p: Prefix)
    requires p.address < 0x1_0000_0000_0000_0000_0000_0000_0000_0000
    ensures Usable(p) <==>
              && p.length == 96 && p.address % V4 == 0 && p.address >= 2
              && !(0xfe80_0000_0000_0000_0000_0000_0000_0000 <= p.address < 0xfec0_0000_0000_0000_0000_0000_0000_0000)
              && p.address < 0xff00_0000_0000_0000_0000_0000_0000_0000
              && !(0xffff_0000_0000 <= p.address < 0x1_0000_0000_0000)
  {
  }

  /** The session a packet from the stub belongs to. */
  function Outer(p: Packet): SessionKey
    requires |p.payload| >= 8
  {
    SessionKey(Key(17, p.source, SourcePort(p.payload), DomainOf(p.destination)),
               Remote(p.destination % V4, DestinationPort(p.payload)))
  }

  function Out4(p: Packet, pool: nat, port: nat): Packet
    requires |p.payload| >= 8 && p.hops > 1
  {
    var dest := p.destination % V4;
    Packet(pool, dest, p.trafficClass, p.hops - 1, false, Outward(p.payload, pool, dest, port))
  }

  function In6(p: Packet, domain: nat, host: nat, port: nat): Packet
    requires |p.payload| >= 8 && p.hops > 1 && domain % V4 == 0 && p.source < V4
  {
    var source := Synthesize(domain, p.source);
    Packet(source, host, p.trafficClass, p.hops - 1, false, Inward(p.payload, source, host, port))
  }

  /** The packet to a pool address turned round: it comes from the pool, with its new port. */
  function Turned(p: Packet, domain: nat, pool: nat, given: nat, host: nat, port: nat): Packet
    requires |p.payload| >= 8 && p.hops > 1 && domain % V4 == 0 && pool < V4
  {
    var source := Synthesize(domain, pool);
    Packet(source, host, p.trafficClass, p.hops - 1, false, Inward(Put16At(p.payload, given), source, host, port))
  }

  function Put16At(b: seq<byte>, n: nat): (r: seq<byte>)
    requires |b| >= 8
    ensures |r| == |b|
  {
    Be16(n) + b[2..]
  }

  /** A packet turned round comes from the pool address below the receiver's prefix and from the
      sender's new port, with the same data. */
  lemma TurnedMeaning(p: Packet, domain: nat, pool: nat, given: nat, host: nat, port: nat)
    requires WellFormed(p.payload) && p.hops > 1 && domain % V4 == 0 && pool < V4 && given <= U16_MAX && port <= U16_MAX
    ensures var o := Turned(p, domain, pool, given, host, port);
            && o.source == domain + pool && o.destination == host && o.hops == p.hops - 1 && o.trafficClass == p.trafficClass
            && |o.payload| == |p.payload| && o.payload[..2] == Be16(given) && o.payload[2..4] == Be16(port)
            && o.payload[8..] == p.payload[8..]
  {
    hide Inward, Checksum6, SourcePort, DestinationPort;
    var b := Put16At(p.payload, given);
    PortsAfter(p.payload, given);
    InwardMeaning(b, domain + pool, host, port);
    SamePort(Turned(p, domain, pool, given, host, port).payload, b);
    PortOctets(Turned(p, domain, pool, given, host, port).payload, port);
  }

  lemma TurnedVerifies(p: Packet, domain: nat, pool: nat, given: nat, host: nat, port: nat)
    requires WellFormed(p.payload) && p.hops > 1 && domain % V4 == 0 && pool < V4 && given <= U16_MAX && port <= U16_MAX
    ensures var o := Turned(p, domain, pool, given, host, port); HasChecksum(o.payload) && Checksum6(o.source, host, o.payload) == 0
  {
    hide Inward, Checksum6;
    PortsAfter(p.payload, given);
    InwardMeaning(Put16At(p.payload, given), domain + pool, host, port);
  }

  lemma PortOctets(b: seq<byte>, port: nat)
    requires |b| >= 8 && DestinationPort(b) == port
    ensures b[2..4] == Be16(port)
  {
    Be16RoundTrip(0, b[2], b[3]);
    assert b[2..4] == [b[2], b[3]];
  }

  lemma SamePort(b: seq<byte>, c: seq<byte>)
    requires |b| >= 8 && |c| >= 8 && SourcePort(b) == SourcePort(c)
    ensures b[..2] == c[..2]
  {
    Be16RoundTrip(0, b[0], b[1]);
    Be16RoundTrip(0, c[0], c[1]);
    assert b[..2] == [b[0], b[1]] && c[..2] == [c[0], c[1]];
  }

  lemma PortsAfter(b: seq<byte>, n: nat)
    requires WellFormed(b) && n <= U16_MAX
    ensures WellFormed(Put16At(b, n)) && SourcePort(Put16At(b, n)) == n && Put16At(b, n)[8..] == b[8..]
  {
    Be16RoundTrip(n, 0, 0);
    hide Be16, FromBe16;
    var r := Put16At(b, n);
    assert forall i :: 2 <= i < |b| ==> r[i] == b[i];
  }

  /** `p` left as `q`: its session is open and owns the source port of `q`. */
  ghost predicate SentOut(f: Flow, p: Packet, pool: nat, now: nat, timeout: nat, q: Packet, g: Flow)
  {
    && WellFormed(p.payload) && p.hops > 1
    && exists port: nat :: port <= U16_MAX && Bound(Swept(f, now), Outer(p), SatAdd(now, timeout), port, g)
                           && q == Out4(p, pool, port)
  }

  /** What an incoming packet does to the table and whom it reaches. */
  ghost predicate Arrived(f: Flow, ad: bool, p: Packet, now: nat, timeout: nat, t: Result<Option<(Address, nat)>, ()>,
                          g: Flow, domain: Address, domain': Address)
  {
    && |p.payload| >= 8
    && Received(Swept(f, now), ad, Port(17, DestinationPort(p.payload)), Remote(p.source, SourcePort(p.payload)),
                SatAdd(now, timeout), t, g, domain, domain')
    && (t.Ok? && t.value.Some? ==> domain' % V4 == 0)
  }

  function Reply(p: Packet, t: Result<Option<(Address, nat)>, ()>, domain: nat): Result<Sent, ()>
    requires |p.payload| >= 8 && p.hops > 1 && p.source < V4
    requires t.Ok? && t.value.Some? ==> domain % V4 == 0
  {
    match t
    case Err(_) => Err(())
    case Ok(None) => Ok(Dropped)
    case Ok(Some((host, port))) => Ok(ToStub(In6(p, domain, host, port)))
  }

  function TurnReply(p: Packet, t: Result<Option<(Address, nat)>, ()>, domain: nat, given: nat): Result<Sent, ()>
    requires |p.payload| >= 8 && p.hops > 1
    requires t.Ok? && t.value.Some? ==> domain % V4 == 0
  {
    match t
    case Err(_) => Err(())
    case Ok(None) => Ok(Dropped)
    case Ok(Some((host, port))) => Ok(ToStub(Turned(p, domain, p.destination % V4, given, host, port)))
  }

  /** The exact session of an incoming packet exists and has not run out. */
  ghost predicate Reported(f: Flow, p: Packet, now: nat)
  {
    && |p.payload| >= 8
    && exists k :: Serves(f, k, Port(17, DestinationPort(p.payload)))
                   && SessionKey(k, Remote(p.source, SourcePort(p.payload))) in f.sessions
                   && f.sessions[SessionKey(k, Remote(p.source, SourcePort(p.payload)))].expires > now
  }

  function Addresses(prefixes: seq<Prefix>): (r: seq<nat>)
    ensures |r| == |prefixes| && forall i :: 0 <= i < |r| ==> r[i] == prefixes[i].address
  {
    seq(|prefixes|, i requires 0 <= i < |prefixes| => prefixes[i].address)
  }

  /** A packet to the pool address: first a binding for the sender, then the inbound filter. */
  ghost predicate Hairpinned(f: Flow, ad: bool, p: Packet, now: nat, timeout: nat, r: Result<Sent, ()>, g: Flow, domain': Address)
  {
    && WellFormed(p.payload) && p.hops > 1
    && ((r == Err(()) && g == Swept(f, now))
        || exists h: Flow, port: nat, t: Result<Option<(Address, nat)>, ()> ::
             && Bound(Swept(f, now), Outer(p), SatAdd(now, timeout), port, h)
             && TurnsRound(h, ad, p, port, now, timeout, t, g, DomainOf(p.destination), domain')
             && r == TurnReply(p, t, domain', port))
  }

  ghost predicate TurnsRound(h: Flow, ad: bool, p: Packet, given: nat, now: nat, timeout: nat,
                             t: Result<Option<(Address, nat)>, ()>, g: Flow, domain: Address, domain': Address)
  {
    && |p.payload| >= 8
    && Received(Swept(h, now), ad, Port(17, DestinationPort(p.payload)), Remote(p.destination % V4, given),
                SatAdd(now, timeout), t, g, domain, domain')
    && (t.Ok? && t.value.Some? ==> domain' % V4 == 0)
  }

  class Nat64 {
    const table: Table
    var prefixes: seq<nat>
    var ipv4: Option<nat>
    var mtus: (nat, nat)

    ghost predicate Valid()
      reads this, table, table.registry
    {
      && table.Valid() && Aligned(table.Current())
      && (forall d :: d in prefixes ==> d % V4 == 0)
      && (ipv4.Some? ==> ipv4.value < V4)
    }

    constructor (table: Table, prefix: nat, ipv4: nat)
      requires table.Valid() && table.Current() == Flow(map[], map[]) && prefix % V4 == 0 && ipv4 < V4
      ensures Valid() && this.table == table && prefixes == [prefix] && this.ipv4 == Some(ipv4)
    {
      this.table := table;
      prefixes, this.ipv4, mtus := [prefix], Some(ipv4), (1500, 1500);
    }

    /** A packet from the stub network. `allowed` and `reachable` are the caller's tests of the
        source and of the embedded destination. A screened packet leaves the table alone; one
        for outside is sent, or fails with nothing but a sweep, and never fails once admitted. */
    method Outbound(p: Packet, fragmented: bool, now: nat, draws: seq<nat>, allowed: bool, reachable: bool)
      returns (r: Result<Sent, ()>)
      requires Valid() && (|p.payload| >= 8 ==> DrawsOk(SourcePort(p.payload), draws))
      modifies table`bindings, table`reverse, table`sessions, table`hosts, table`next, table`domain, table.registry
      ensures Valid()
      ensures forall keep :: Stepped(old(table.Current()), now, table.udpSeconds * 1000, keep, table.Current())
      ensures var v := ScreenOut(prefixes, ipv4, mtus.0, p, allowed, reachable, fragmented);
              && JudgedOut(prefixes, ipv4, mtus.0, p, allowed, reachable, fragmented, v)
              && (v.Stop? ==> r == v.r && table.Current() == old(table.Current())
                              && table.domain == if ForUs(prefixes, ipv4, p, allowed) then DomainOf(p.destination) else old(table.domain))
              && (v.Pass? && p.destination % V4 != ipv4.value ==>
                    && (r.Err? ==> table.Current() == Swept(old(table.Current()), now))
                    && (r.Ok? ==> r.value.ToAil? && SentOut(old(table.Current()), p, ipv4.value, now, table.udpSeconds * 1000,
                                                            r.value.p, table.Current()))
                    && (Admitted(Swept(old(table.Current()), now), Outer(p)) && old(table.registry.state.next) < U64_MAX
                        ==> r.Ok?))
              && (v.Pass? && p.destination % V4 == ipv4.value ==>
                    Hairpinned(old(table.Current()), table.filtering == AddressDependent, p, now, table.udpSeconds * 1000, r,
                               table.Current(), table.domain))
    {
      hide Swept, Bound, Admitted, Capped, FlowOf, Aligned, Stepped, Moved, DrawsOk, Consistent, NextOk, Outer, Out4, TurnReply, TurnsRound, JudgedOut;
      ghost var f := table.Current();
      TableFacts(table);
      StayFacts(f, now, table.udpSeconds * 1000);
      OutboundChecks(prefixes, ipv4, mtus.0, p, allowed, reachable, fragmented);
      if ForUs(prefixes, ipv4, p, allowed) {
        var d :| d in prefixes && Contains(d, p.destination);
        SynthesizeRoundTrip(p.destination, d);
        table.domain := d;
      }
      var v := ScreenOut(prefixes, ipv4, mtus.0, p, allowed, reachable, fragmented);
      if v.Stop? {
        return v.r;
      }
      var given := Assign(p, now, draws);
      if given.None? {
        return Err(());
      }
      if p.destination % V4 == ipv4.value {
        r := TurnRound(p, given.value, now, f);
      } else {
        r := Ok(ToAil(Out4(p, ipv4.value, given.value)));
      }
    }

    /** The binding for a packet that passed every check. */
    method Assign(p: Packet, now: nat, draws: seq<nat>) returns (port: Option<nat>)
      requires Valid() && WellFormed(p.payload) && DrawsOk(SourcePort(p.payload), draws) && table.domain == DomainOf(p.destination)
      modifies table`bindings, table`reverse, table`sessions, table`hosts, table`next, table.registry
      ensures Valid()
      ensures forall keep :: Moved(old(table.Current()), now, table.udpSeconds * 1000, keep, table.Current())
      ensures forall keep :: Stepped(old(table.Current()), now, table.udpSeconds * 1000, keep, table.Current())
      ensures var f := Swept(old(table.Current()), now);
              && (port.None? ==> table.Current() == f)
              && (port.Some? ==> port.value <= U16_MAX
                                 && Bound(f, Outer(p), SatAdd(now, table.udpSeconds * 1000), port.value, table.Current()))
              && (Admitted(f, Outer(p)) && old(table.registry.state.next) < U64_MAX ==> port.Some?)
    {
      hide Swept, Bound, Admitted, Capped, FlowOf, Aligned, Stepped, Moved, DrawsOk, Consistent, NextOk;
      ghost var f := table.Current();
      port := table.UdpOut(p.source, SourcePort(p.payload), Remote(p.destination % V4, DestinationPort(p.payload)), now, draws, {});
      TableFacts(table);
      AssignedFacts(f, now, table.udpSeconds * 1000, Outer(p), port, table.Current());
    }

    /** The outgoing tuple applied to the inbound filter. */
    method TurnRound(p: Packet, given: nat, now: nat, ghost f: Flow) returns (r: Result<Sent, ()>)
      requires Valid() && WellFormed(p.payload) && p.hops > 1
      requires forall keep :: Moved(f, now, table.udpSeconds * 1000, keep, table.Current())
      modifies table`bindings, table`reverse, table`sessions, table`hosts, table`next, table`domain, table.registry
      ensures Valid()
      ensures forall keep :: Stepped(f, now, table.udpSeconds * 1000, keep, table.Current())
      ensures exists t: Result<Option<(Address, nat)>, ()> ::
                && TurnsRound(old(table.Current()), table.filtering == AddressDependent, p, given, now, table.udpSeconds * 1000,
                              t, table.Current(), old(table.domain), table.domain)
                && r == TurnReply(p, t, table.domain, given)
    {
      hide Swept, Received, Capped, FlowOf, Aligned, Stepped, Moved, Consistent, NextOk, Turned;
      ghost var h := table.Current();
      var target := table.UdpIn(DestinationPort(p.payload), Remote(p.destination % V4, given), now);
      TableFacts(table);
      ReceivedFacts(h, now, table.udpSeconds * 1000, table.filtering == AddressDependent, Port(17, DestinationPort(p.payload)),
                    Remote(p.destination % V4, given), target, table.Current(), old(table.domain), table.domain);
      TwoMoves(f, h, table.Current(), now, table.udpSeconds * 1000);
      r := TurnReply(p, target, table.domain, given);
    }

    /** A packet from the IPv4 side. */
    method Inbound(p: Packet, routed: bool, now: nat) returns (r: Result<Sent, ()>)
      requires Valid() && p.source < V4
      modifies table`bindings, table`reverse, table`sessions, table`hosts, table`next, table`domain, table.registry
      ensures Valid()
      ensures forall keep :: Stepped(old(table.Current()), now, table.udpSeconds * 1000, keep, table.Current())
      ensures var known := Reported(old(table.Current()), p, now); var v := ScreenIn(ipv4, mtus.1, p, routed, known);
              && JudgedIn(ipv4, mtus.1, p, routed, known, v)
              && (v.Stop? ==> table.Current() == old(table.Current()) && r == v.r)
      ensures ScreenIn(ipv4, mtus.1, p, routed, true).Pass? ==>
                exists t: Result<Option<(Address, nat)>, ()> ::
                  Arrived(old(table.Current()), table.filtering == AddressDependent, p, now, table.udpSeconds * 1000, t,
                          table.Current(), old(table.domain), table.domain)
                  && r == Reply(p, t, table.domain)
    {
      hide Swept, Received, Capped, FlowOf, Aligned, Stepped, Moved, Consistent, NextOk, In6, JudgedIn;
      ghost var f := table.Current();
      TableFacts(table);
      StayFacts(f, now, table.udpSeconds * 1000);
      InboundChecks(ipv4, mtus.1, p, routed, Reported(f, p, now));
      if |p.payload| < 8 {
        return Err(());
      }
      var known := table.ErrorIn(17, DestinationPort(p.payload), Remote(p.source, SourcePort(p.payload)), now);
      var v := ScreenIn(ipv4, mtus.1, p, routed, known.Some?);
      if v.Stop? {
        return v.r;
      }
      var target := table.UdpIn(DestinationPort(p.payload), Remote(p.source, SourcePort(p.payload)), now);
      TableFacts(table);
      ReceivedFacts(f, now, table.udpSeconds * 1000, table.filtering == AddressDependent, Port(17, DestinationPort(p.payload)),
                    Remote(p.source, SourcePort(p.payload)), target, table.Current(), old(table.domain), table.domain);
      r := Reply(p, target, table.domain);
    }

    /** The timer: dead sessions go, and nothing else happens to UDP. */
    method Poll(now: nat)
      requires Valid()
      modifies table`bindings, table`reverse, table`sessions, table`hosts, table`next, table.registry
      ensures Valid() && table.Current() == Swept(old(table.Current()), now)
      ensures forall keep :: Stepped(old(table.Current()), now, table.udpSeconds * 1000, keep, table.Current())
    {
      hide Swept, Capped, FlowOf, Aligned, Stepped, Moved, Consistent, NextOk, Locals, Distinct;
      ghost var f := table.Current();
      var _ := table.Expire(now);
      TableFacts(table);
      SweptAligned(f, now);
      SweepSteps(f, now, table.udpSeconds * 1000, table.Current());
    }

    /** The binding of an echo request from the stub to an address below a prefix. */
    method EchoOut(source: nat, id: nat, destination: nat, now: nat, draws: seq<nat>) returns (r: Option<nat>)
      requires Valid() && id <= U16_MAX && DrawsOk(id, draws) && exists d :: d in prefixes && Contains(d, destination)
      modifies table`bindings, table`reverse, table`sessions, table`hosts, table`next, table`domain, table.registry
      ensures Valid()
      ensures forall keep :: Stepped(old(table.Current()), now, table.udpSeconds * 1000, keep, table.Current())
      ensures var sk := SessionKey(Key(1, source, id, DomainOf(destination)), Remote(destination % V4, 0));
              var f := Swept(old(table.Current()), now);
              && (r.None? ==> table.Current() == f)
              && (r.Some? ==> Bound(f, sk, SatAdd(now, table.icmpSeconds * 1000), r.value, table.Current()))
              && (Admitted(f, sk) && old(table.registry.state.next) < U64_MAX ==> r.Some?)
    {
      hide Swept, Bound, Admitted, Capped, FlowOf, Aligned, Stepped, Moved, DrawsOk, Consistent, NextOk, Distinct;
      ghost var f := table.Current();
      var d :| d in prefixes && Contains(d, destination);
      SynthesizeRoundTrip(destination, d);
      table.domain := d;
      r := table.IcmpOut(source, id, destination % V4, now, draws);
      TableFacts(table);
      EchoFacts(f, now, table.udpSeconds * 1000, SessionKey(Key(1, source, id, d), Remote(destination % V4, 0)),
                SatAdd(now, table.icmpSeconds * 1000), r, table.Current());
    }

    /** The owner of an echo from outside. */
    method EchoIn(id: nat, remote: nat, now: nat) returns (r: Option<(Address, nat)>)
      requires Valid()
      modifies table`bindings, table`reverse, table`sessions, table`hosts, table`next, table`domain, table.registry
      ensures Valid() && (r.Some? ==> table.domain % V4 == 0)
      ensures var f := Swept(old(table.Current()), now);
              if exists k :: Serves(f, k, Port(1, id)) && SessionKey(k, Remote(remote, 0)) in f.sessions then
                exists k :: Serves(f, k, Port(1, id)) && r == Some((k.host, k.port)) && table.domain == k.domain
                            && table.Current() == Opened(f, SessionKey(k, Remote(remote, 0)),
                                                         Session(SatAdd(now, table.icmpSeconds * 1000), None), f.leases[k])
              else r == None && table.Current() == f && table.domain == old(table.domain)
      ensures forall keep :: Stepped(old(table.Current()), now, table.udpSeconds * 1000, keep, table.Current())
    {
      hide Swept, Admitted, Capped, FlowOf, Aligned, Stepped, Moved, Consistent, NextOk, Distinct, Opened;
      ghost var f := table.Current();
      r := table.IcmpIn(id, remote, now);
      TableFacts(table);
      SweptAligned(f, now);
      ghost var expires := SatAdd(now, table.icmpSeconds * 1000);
      if r.None? {
        SweepSteps(f, now, table.udpSeconds * 1000, table.Current());
      } else {
        ghost var k: Key :| Serves(Swept(f, now), k, Port(1, id)) && k.protocol == 1 && r == Some((k.host, k.port)) && table.domain == k.domain
                            && table.Current() == Opened(Swept(f, now), SessionKey(k, Remote(remote, 0)),
                                                         Session(expires, None), Swept(f, now).leases[k]);
        EchoInFacts(f, now, table.udpSeconds * 1000, k, id, Remote(remote, 0), expires, table.Current());
      }
    }

    /** A new list of prefixes: only what uses one of them stays. */
    method SetPrefixes(next: seq<Prefix>) returns (r: Result<(), ()>)
      requires Valid()
      modifies this`prefixes, table`bindings, table`reverse, table`sessions, table`hosts, table`next, table.registry
      ensures Valid()
      ensures r.Ok? <==> |next| <= 8 && forall p :: p in next ==> Usable(p)
      ensures r.Err? ==> prefixes == old(prefixes) && table.Current() == old(table.Current())
      ensures r.Ok? ==> prefixes == Addresses(next)
                        && (prefixes == old(prefixes) ==> table.Current() == old(table.Current()))
                        && (prefixes != old(prefixes) ==> table.Current() == Filtered(old(table.Current()), set d | d in prefixes))
      ensures r.Ok? ==> forall keep, now :: keep in prefixes ==>
                          Stepped(old(table.Current()), now, table.udpSeconds * 1000, keep, table.Current())
    {
      hide Filtered, Swept, Capped, FlowOf, Aligned, Stepped, Moved, Consistent, NextOk;
      ghost var f := table.Current();
      TableFacts(table);
      if |next| > 8 || exists p :: p in next && !Usable(p) {
        return Err(());
      }
      var addresses := Addresses(next);
      UsableAligned(next);
      var domains := set d | d in addresses;
      if prefixes != addresses {
        table.RetainDomains(domains);
        prefixes := addresses;
      }
      TableFacts(table);
      RotatedFacts(f, table.udpSeconds * 1000, domains, table.Current());
      return Ok(());
    }

    /** A new UDP timeout holds for sessions opened or renewed from now on. */
    method SetUdpTimeout(seconds: nat) returns (r: Result<(), ()>)
      requires Valid()
      modifies table`udpSeconds
      ensures Valid() && table.Current() == old(table.Current())
      ensures r.Ok? <==> 120 <= seconds <= 86400
      ensures table.udpSeconds == if r.Ok? then seconds else old(table.udpSeconds)
      ensures forall keep, now :: Stepped(old(table.Current()), now, table.udpSeconds * 1000, keep, table.Current())
    {
      hide Capped, FlowOf, Aligned, Stepped, Consistent, NextOk, Distinct;
      TableFacts(table);
      StaysAlways(table.Current());
      if !(120 <= seconds <= 86400) { return Err(()); }
      table.udpSeconds := seconds;
      return Ok(());
    }

    /** A new IPv4 address ends every binding. */
    method SetIpv4(next: Option<nat>) returns (r: Result<(), ()>)
      requires Valid() && (next.Some? ==> next.value < V4)
      modifies this`ipv4, table`bindings, table`reverse, table`sessions, table`hosts, table`next, table.registry
      ensures Valid()
      ensures r.Ok? <==> (next.Some? ==> Unicast4(next.value))
      ensures ipv4 == if r.Ok? then next else old(ipv4)
      ensures table.Current() == if ipv4 == old(ipv4) then old(table.Current()) else Flow(map[], map[])
    {
      hide Capped, FlowOf, Consistent, NextOk;
      if next.Some? && !Unicast4(next.value) {
        return Err(());
      }
      if ipv4 != next {
        var _ := table.Clear();
        ipv4 := next;
      }
      return Ok(());
    }
  }

  lemma TableFacts(table: Table)
    requires table.Valid()
    ensures Capped(table.Current()) && Distinct(table.Current())
  {
    hide FlowOf, Capped, Distinct;
    TableIsDistinct(table.View(), table.registry.state);
  }

  lemma StayFacts(f: Flow, now: nat, timeout: nat)
    requires Capped(f) && Distinct(f)
    ensures forall keep :: Stepped(f, now, timeout, keep, f)
  {
    hide Capped, Distinct, Moved, Stepped, Swept;
    forall keep
      ensures Stepped(f, now, timeout, keep, f)
    {
      SweepMoves(f, now, timeout, keep, f);
      MovedIsStep(f, now, timeout, keep, f);
    }
  }

  lemma StaysAlways(f: Flow)
    requires Capped(f) && Distinct(f)
    ensures forall now, timeout, keep :: Stepped(f, now, timeout, keep, f)
  {
    hide Capped, Distinct, Stepped;
    forall now, timeout, keep
      ensures Stepped(f, now, timeout, keep, f)
    {
      StayFacts(f, now, timeout);
    }
  }

  lemma SweptAligned(f: Flow, now: nat)
    requires Aligned(f)
    ensures Aligned(Swept(f, now))
  {
    hide Survivors, Owned;
  }

  lemma AssignedFacts(f: Flow, now: nat, timeout: nat, sk: SessionKey, port: Option<nat>, g: Flow)
    requires Aligned(f) && sk.key.domain % V4 == 0 && sk.key.protocol == 17 && Capped(g) && Distinct(g)
    requires port.None? ==> g == Swept(f, now)
    requires port.Some? ==> Bound(Swept(f, now), sk, SatAdd(now, timeout), port.value, g)
    ensures Aligned(g) && (port.Some? ==> port.value <= U16_MAX)
    ensures forall keep :: Moved(f, now, timeout, keep, g) && Stepped(f, now, timeout, keep, g)
  {
    hide Capped, Distinct, Moved, Stepped, Swept;
    SweptAligned(f, now);
    forall keep
      ensures Moved(f, now, timeout, keep, g) && Stepped(f, now, timeout, keep, g)
    {
      if port.None? {
        SweepMoves(f, now, timeout, keep, g);
      } else {
        BoundMoves(f, now, timeout, keep, sk, port.value, g);
      }
      MovedIsStep(f, now, timeout, keep, g);
    }
  }

  lemma ReceivedFacts(f: Flow, now: nat, timeout: nat, ad: bool, p: Port, remote: Remote,
                      r: Result<Option<(Address, nat)>, ()>, g: Flow, domain: Address, domain': Address)
    requires Aligned(f) && Capped(g) && Distinct(g)
    requires Received(Swept(f, now), ad, p, remote, SatAdd(now, timeout), r, g, domain, domain')
    ensures Aligned(g) && (r.Ok? && r.value.Some? ==> domain' % V4 == 0)
    ensures forall keep :: Moved(f, now, timeout, keep, g) && Stepped(f, now, timeout, keep, g)
  {
    hide Capped, Distinct, Moved, Stepped, Swept, FilterPasses, Admitted;
    SweptAligned(f, now);
    forall keep
      ensures Moved(f, now, timeout, keep, g) && Stepped(f, now, timeout, keep, g)
    {
      ReceivedMoves(f, now, timeout, keep, ad, p, remote, r, g, domain, domain');
      MovedIsStep(f, now, timeout, keep, g);
    }
  }

  lemma SweepSteps(f: Flow, now: nat, timeout: nat, g: Flow)
    requires Capped(g) && Distinct(g) && g == Swept(f, now)
    ensures forall keep :: Stepped(f, now, timeout, keep, g)
  {
    hide Capped, Distinct, Moved, Stepped, Swept;
    forall keep
      ensures Stepped(f, now, timeout, keep, g)
    {
      SweepMoves(f, now, timeout, keep, g);
      MovedIsStep(f, now, timeout, keep, g);
    }
  }

  lemma EchoFacts(f: Flow, now: nat, timeout: nat, sk: SessionKey, expires: nat, id: Option<nat>, g: Flow)
    requires Aligned(f) && sk.key.domain % V4 == 0 && sk.key.protocol == 1 && Capped(g) && Distinct(g)
    requires id.None? ==> g == Swept(f, now)
    requires id.Some? ==> Bound(Swept(f, now), sk, expires, id.value, g)
    ensures Aligned(g) && forall keep :: Stepped(f, now, timeout, keep, g)
  {
    hide Capped, Distinct, Moved, Stepped, Swept;
    SweptAligned(f, now);
    if id.None? {
      SweepSteps(f, now, timeout, g);
    } else {
      forall keep
        ensures Stepped(f, now, timeout, keep, g)
      {
        EchoBoundMoves(f, now, timeout, keep, sk, expires, id.value, g);
        MovedIsStep(f, now, timeout, keep, g);
      }
    }
  }

  lemma EchoInFacts(f: Flow, now: nat, timeout: nat, k: Key, id: nat, remote: Remote, expires: nat, g: Flow)
    requires Aligned(Swept(f, now)) && Capped(g) && Distinct(g) && k.protocol == 1 && Serves(Swept(f, now), k, Port(1, id))
    requires g == Opened(Swept(f, now), SessionKey(k, remote), Session(expires, None), Swept(f, now).leases[k])
    ensures Aligned(g) && k.domain % V4 == 0 && forall keep :: Stepped(f, now, timeout, keep, g)
  {
    hide Capped, Distinct, Moved, Stepped, Swept;
    forall keep
      ensures Stepped(f, now, timeout, keep, g)
    {
      EchoInMoves(f, now, timeout, keep, k, remote, expires, g);
      MovedIsStep(f, now, timeout, keep, g);
    }
  }

  lemma RotatedFacts(f: Flow, timeout: nat, domains: set<Address>, g: Flow)
    requires Capped(g) && Distinct(g) && (g == f || g == Filtered(f, domains))
    ensures Aligned(f) ==> Aligned(g)
    ensures forall keep, now :: keep in domains ==> Stepped(f, now, timeout, keep, g)
  {
    hide Capped, Distinct, Moved, Stepped, Swept;
    forall keep, now | keep in domains
      ensures Stepped(f, now, timeout, keep, g)
    {
      if g == f {
        SweepMoves(f, now, timeout, keep, g);
      } else {
        RotationMoves(f, now, timeout, keep, domains, g);
      }
      MovedIsStep(f, now, timeout, keep, g);
    }
  }

  lemma TwoMoves(f: Flow, h: Flow, g: Flow, now: nat, timeout: nat)
    requires forall keep :: Moved(f, now, timeout, keep, h)
    requires forall keep :: Moved(h, now, timeout, keep, g)
    ensures forall keep :: Stepped(f, now, timeout, keep, g)
  {
    hide Moved;
    forall keep
      ensures Stepped(f, now, timeout, keep, g)
    {
      assert Moved(f, now, timeout, keep, h) && Moved(h, now, timeout, keep, g);
    }
  }

  lemma UsableAligned(prefixes: seq<Prefix>)
    requires forall p :: p in prefixes ==> Usable(p)
    ensures forall d :: d in Addresses(prefixes) ==> d % V4 == 0
  {
    var r := Addresses(prefixes);
    forall i | 0 <= i < |r|
      ensures r[i] % V4 == 0
    {
      assert prefixes[i] in prefixes;
    }
  }

  // ---------------------------------------------------------------- there and back

  /** `reply` answers `q`: same two endpoints, the other way round. */
  predicate Answers(reply: Packet, q: Packet)
    requires |q.payload| >= 8
  {
    && WellFormed(reply.payload) && reply.hops > 1
    && reply.source == q.destination && SourcePort(reply.payload) == DestinationPort(q.payload)
    && reply.destination == q.source && DestinationPort(reply.payload) == SourcePort(q.payload)
  }

  /** What the host must see: an answer from exactly the address and port it sent to. */
  predicate Delivers(o: Packet, p: Packet, reply: Packet)
    requires |o.payload| >= 8 && |p.payload| >= 8 && |reply.payload| >= 8
  {
    && o.source == p.destination && SourcePort(o.payload) == DestinationPort(p.payload)
    && o.destination == p.source && DestinationPort(o.payload) == SourcePort(p.payload)
    && o.payload[8..] == reply.payload[8..]
    && HasChecksum(o.payload) && Checksum6(o.source, o.destination, o.payload) == 0
    && o.hops == reply.hops - 1 && o.trafficClass == reply.trafficClass
  }

  lemma BoundLease(before: Flow, start: nat, timeout: nat, sk: SessionKey, port: nat, g: Flow, deadline: nat) returns (l: Lease)
    requires Bound(Swept(before, start), sk, SatAdd(start, timeout), port, g) && sk.key.protocol == 17
    requires Capped(g) && Distinct(g) && deadline <= SatAdd(start, timeout)
    ensures Lasts(g, sk, l, deadline) && l.port == Port(17, port)
  {
    hide Swept, Capped, Distinct;
    BoundMoves(before, start, timeout, 0, sk, port, g);
    l := g.leases[sk.key];
  }

  lemma RunShape(run: seq<Flow>, times: seq<nat>, timeouts: seq<nat>, keep: Address)
    requires Run(run, times, timeouts, keep)
    ensures |run| == |times| + 1 && |timeouts| == |times|
  {
  }

  lemma RunIsSane(run: seq<Flow>, times: seq<nat>, timeouts: seq<nat>, keep: Address)
    requires Run(run, times, timeouts, keep) && Capped(run[0]) && Distinct(run[0])
    ensures Capped(run[|times|]) && Distinct(run[|times|])
  {
    hide Capped, Distinct, Stepped;
    if times != [] {
      StepIsSane(run[|times| - 1], times[|times| - 1], timeouts[|times| - 1], keep, run[|times|]);
    }
  }

  lemma StepIsSane(f: Flow, now: nat, timeout: nat, keep: Address, g: Flow)
    requires Stepped(f, now, timeout, keep, g)
    ensures Capped(g) && Distinct(g)
  {
    hide Capped, Distinct;
  }

  /** After `p` is translated to `q`, an answer to `q` before the session's time is delivered to
      the sender of `p`, after any run of other packets, refusals, sweeps, timeout changes and
      prefix rotations that keep the prefix. */
  lemma AnswersComeBack(before: Flow, p: Packet, pool: nat, start: nat, timeout: nat, q: Packet,
                        run: seq<Flow>, times: seq<nat>, timeouts: seq<nat>, deadline: nat,
                        reply: Packet, ad: bool, now: nat, last: nat, t: Result<Option<(Address, nat)>, ()>, after: Flow,
                        domain: Address, domain': Address)
    requires Run(run, times, timeouts, DomainOf(p.destination)) && Meanwhile(times, timeouts, deadline)
    requires SentOut(before, p, pool, start, timeout, q, run[0]) && Capped(run[0]) && Distinct(run[0])
    requires Answers(reply, q) && now < deadline <= SatAdd(start, timeout)
    requires Arrived(run[|times|], ad, reply, now, last, t, after, domain, domain')
    ensures WellFormed(q.payload) && HasChecksum(q.payload) && Checksum4(q.source, q.destination, q.payload) == 0
    ensures q.payload[8..] == p.payload[8..] && q.source == pool && DomainOf(p.destination) + q.destination == p.destination
    ensures q.hops == p.hops - 1 && q.trafficClass == p.trafficClass && DestinationPort(q.payload) == DestinationPort(p.payload)
    ensures domain' % V4 == 0 && reply.source < V4
    ensures Reply(reply, t, domain').Ok? && Reply(reply, t, domain').value.ToStub?
            && |Reply(reply, t, domain').value.p.payload| >= 8 && Delivers(Reply(reply, t, domain').value.p, p, reply)
  {
    hide Bound, Swept, Capped, Distinct, Run, Lasts, Received, Inward, Outward, Checksum4, Checksum6, SourcePort, DestinationPort, Meanwhile;
    RunShape(run, times, timeouts, DomainOf(p.destination));
    var port: nat :| port <= U16_MAX && Bound(Swept(before, start), Outer(p), SatAdd(start, timeout), port, run[0])
                     && q == Out4(p, pool, port);
    var sk := Outer(p);
    var l := BoundLease(before, start, timeout, sk, port, run[0], deadline);
    OutwardMeaning(p.payload, pool, p.destination % V4, port);
    OutwardPorts(p.payload, Outward(p.payload, pool, p.destination % V4, port), port);
    SessionOutlivesTraffic(run, times, timeouts, deadline, sk, l);
    RunIsSane(run, times, timeouts, DomainOf(p.destination));
    LiveSessionReceives(run[|times|], ad, sk, l, deadline, now, SatAdd(now, last), t, after, domain, domain');
    SynthesizeRoundTrip(p.destination, 0);
    InwardMeaning(reply.payload, p.destination, p.source, SourcePort(p.payload));
  }

  /** An answer from a unicast address, with a right checksum or none, that needs no error report is
      not stopped before the table: what `Inbound` returns for it is its `Reply`. */
  lemma AnswerPasses(q: Packet, pool: nat, mtu: nat, reply: Packet, known: bool)
    requires |q.payload| >= 8 && Answers(reply, q) && q.source == pool && Unicast4(q.destination)
    ensures ScreenIn(Some(pool), mtu, reply, false, known).Pass? <==>
              && (HasChecksum(reply.payload) ==> Checksum4(reply.source, reply.destination, reply.payload) == 0)
              && (reply.dontFragment ==> |reply.payload| + 40 <= mtu)
  {
    hide Checksum4;
  }
}
