/** Runs of the NAT64 binding table: a UDP session outlives all other traffic until its time. */
module FlowRuns {
  import opened Bytes
  import opened Results
  import opened Ports
  import opened BindingTables
  import opened Flows
  import opened Bindings

  /** No two keys share an external port. */
  ghost predicate Distinct(f: Flow)
  {
    forall j, k :: j in f.leases && k in f.leases && f.leases[j].port == f.leases[k].port ==> j == k
  }

  /** A session as an operation at `now` opens or renews it: an owned port is kept, and a UDP
      session lasts the full timeout from `now`. */
  ghost predicate Renewal(f: Flow, now: nat, timeout: nat, sk: SessionKey, s: Session, l: Lease)
  {
    && (sk.key in f.leases ==> f.leases[sk.key] == l)
    && (sk.key.protocol == 17 ==> s == Session(SatAdd(now, timeout), None))
  }

  /** Traffic of another protocol leaves every UDP port and session alone. */
  ghost predicate UdpUntouched(f: Flow, g: Flow)
  {
    && (forall k :: k in f.leases && k.protocol == 17 ==> k in g.leases && g.leases[k] == f.leases[k])
    && (forall sk :: sk in f.sessions && sk.key.protocol == 17 ==> sk in g.sessions && g.sessions[sk] == f.sessions[sk])
  }

  datatype Move = Idle | Refused | Renewed(sk: SessionKey, s: Session, l: Lease) | Rotated(domains: set<Address>) | Other

  /** One operation at time `now` that keeps the prefix `keep`: nothing, a sweep (alone when
      traffic is refused), an admitted packet, a prefix rotation, or another protocol. */
  ghost predicate Moves(f: Flow, now: nat, timeout: nat, keep: Address, m: Move, g: Flow)
  {
    && Capped(g) && Distinct(g)
    && match m
       case Idle => g == f
       case Refused => g == Swept(f, now)
       case Renewed(sk, s, l) => Renewal(Swept(f, now), now, timeout, sk, s, l) && g == Opened(Swept(f, now), sk, s, l)
       case Rotated(domains) => keep in domains && g == Filtered(f, domains)
       case Other => UdpUntouched(Swept(f, now), g)
  }

  ghost predicate Moved(f: Flow, now: nat, timeout: nat, keep: Address, g: Flow)
  {
    exists m: Move :: Moves(f, now, timeout, keep, m, g)
  }

  /** One packet: one move, or two when it turns round inside the router. */
  ghost predicate Stepped(f: Flow, now: nat, timeout: nat, keep: Address, g: Flow)
  {
    exists h: Flow :: Moved(f, now, timeout, keep, h) && Moved(h, now, timeout, keep, g)
  }

  /** A run: `times[i]` is when the step from `run[i]` to `run[i + 1]` happens, and `timeouts[i]` the
      UDP timeout then. */
  ghost predicate Run(run: seq<Flow>, times: seq<nat>, timeouts: seq<nat>, keep: Address)
  {
    && |run| == |times| + 1 && |timeouts| == |times|
    && forall i :: 0 <= i < |times| ==> Stepped(run[i], times[i], timeouts[i], keep, run[i + 1])
  }

  /** Every step comes before `deadline`, and a session it renews lasts to `deadline` or longer,
      under whatever UDP timeout is then set. */
  predicate Meanwhile(times: seq<nat>, timeouts: seq<nat>, deadline: nat)
    requires |timeouts| == |times|
  {
    forall i :: 0 <= i < |times| ==> times[i] < deadline <= SatAdd(times[i], timeouts[i])
  }

  /** The UDP session is open over the lease until `deadline` or later. */
  ghost predicate Lasts(f: Flow, sk: SessionKey, l: Lease, deadline: nat)
  {
    && sk.key.protocol == 17
    && sk in f.sessions && f.sessions[sk].tcp == None && f.sessions[sk].expires >= deadline
    && sk.key in f.leases && f.leases[sk.key] == l
  }

  lemma SweepKeepsLive(f: Flow, now: nat, sk: SessionKey, l: Lease, deadline: nat)
    requires Lasts(f, sk, l, deadline) && now < deadline
    ensures Lasts(Swept(f, now), sk, l, deadline)
  {
    assert Aged(f.sessions[sk], now) == f.sessions[sk];
    assert sk in SessionsOf(Survivors(f.sessions, now), sk.key);
  }

  lemma MoveKeepsLive(f: Flow, now: nat, timeout: nat, m: Move, g: Flow, sk: SessionKey, l: Lease, deadline: nat)
    requires Moves(f, now, timeout, sk.key.domain, m, g)
    requires Lasts(f, sk, l, deadline) && now < deadline <= SatAdd(now, timeout)
    ensures Lasts(g, sk, l, deadline)
  {
    hide Swept, Capped;
    SweepKeepsLive(f, now, sk, l, deadline);
  }

  lemma StepKeepsLive(f: Flow, now: nat, timeout: nat, g: Flow, sk: SessionKey, l: Lease, deadline: nat)
    requires Stepped(f, now, timeout, sk.key.domain, g)
    requires Lasts(f, sk, l, deadline) && now < deadline <= SatAdd(now, timeout)
    ensures Lasts(g, sk, l, deadline)
  {
    hide Lasts, Moves;
    var h: Flow :| Moved(f, now, timeout, sk.key.domain, h) && Moved(h, now, timeout, sk.key.domain, g);
    var m: Move :| Moves(f, now, timeout, sk.key.domain, m, h);
    MoveKeepsLive(f, now, timeout, m, h, sk, l, deadline);
    var n: Move :| Moves(h, now, timeout, sk.key.domain, n, g);
    MoveKeepsLive(h, now, timeout, n, g, sk, l, deadline);
  }

  /** Over every run inside its lifetime the session stays open over the same port. */
  lemma {:induction false} SessionOutlivesTraffic(run: seq<Flow>, times: seq<nat>, timeouts: seq<nat>, deadline: nat,
                                                  sk: SessionKey, l: Lease)
    requires Run(run, times, timeouts, sk.key.domain) && Meanwhile(times, timeouts, deadline)
    requires Lasts(run[0], sk, l, deadline)
    ensures Lasts(run[|times|], sk, l, deadline)
    decreases |times|
  {
    hide Lasts, Stepped;
    if times != [] {
      var n := |times| - 1;
      SessionOutlivesTraffic(run[..n + 1], times[..n], timeouts[..n], deadline, sk, l);
      assert run[..n + 1][n] == run[n];
      StepKeepsLive(run[n], times[n], timeouts[n], run[n + 1], sk, l, deadline);
    }
  }

  /** What an incoming packet meets when its session is live: the owner, and never a refusal. */
  lemma LiveSessionReceives(f: Flow, ad: bool, sk: SessionKey, l: Lease, deadline: nat, now: nat, expires: nat,
                            r: Result<Option<(Address, nat)>, ()>, g: Flow, domain: Address, domain': Address)
    requires Capped(f) && Distinct(f) && Lasts(f, sk, l, deadline) && now < deadline
    requires Received(Swept(f, now), ad, l.port, sk.remote, expires, r, g, domain, domain')
    ensures r == Ok(Some((sk.key.host, sk.key.port))) && domain' == sk.key.domain
    ensures g == Opened(Swept(f, now), sk, Session(expires, None), l)
  {
    hide Swept, Capped, Admitted, Opened;
    var h := Swept(f, now);
    SweepKeepsLive(f, now, sk, l, deadline);
    SweepKeepsDistinct(f, now);
    SweptIsCapped(f, now);
    LiveSessionAdmitted(h, sk);
    assert Serves(h, sk.key, l.port);
    assert forall k :: Serves(h, k, l.port) ==> k == sk.key;
    assert FilterPasses(h, ad, sk.key, sk.remote);
    assert SessionKey(sk.key, sk.remote) == sk;
  }

  lemma SweepKeepsDistinct(f: Flow, now: nat)
    requires Distinct(f)
    ensures Distinct(Swept(f, now))
  {
    hide Survivors, Owned;
  }

  // ---------------------------------------------------------------- the table's operations are moves

  lemma TableIsDistinct(t: Tables, ports: State)
    requires Consistent(t, ports)
    ensures Distinct(FlowOf(t))
  {
    hide Counted, Hosted, Sane;
    forall j, k | j in t.bindings && k in t.bindings && t.bindings[j].lease.port == t.bindings[k].lease.port
      ensures j == k
    {
      assert t.reverse[PortOf(j, t.bindings[j])] == j && t.reverse[PortOf(k, t.bindings[k])] == k;
    }
  }

  lemma BoundMoves(f: Flow, now: nat, timeout: nat, keep: Address, sk: SessionKey, port: nat, g: Flow)
    requires Capped(g) && Distinct(g) && sk.key.protocol == 17
    requires Bound(Swept(f, now), sk, SatAdd(now, timeout), port, g)
    ensures Moved(f, now, timeout, keep, g)
    ensures Lasts(g, sk, g.leases[sk.key], SatAdd(now, timeout)) && g.leases[sk.key].port == Port(17, port)
  {
    hide Swept, Capped, Distinct;
    assert Moves(f, now, timeout, keep, Renewed(sk, Session(SatAdd(now, timeout), None), g.leases[sk.key]), g);
  }

  /** An echo identifier bound or renewed is a move too: its own timeout does not matter to UDP. */
  lemma EchoBoundMoves(f: Flow, now: nat, timeout: nat, keep: Address, sk: SessionKey, expires: nat, port: nat, g: Flow)
    requires Capped(g) && Distinct(g) && sk.key.protocol == 1
    requires Bound(Swept(f, now), sk, expires, port, g)
    ensures Moved(f, now, timeout, keep, g)
  {
    hide Swept, Capped, Distinct;
    assert Moves(f, now, timeout, keep, Renewed(sk, Session(expires, None), g.leases[sk.key]), g);
  }

  /** And so is an echo that is let in. */
  lemma EchoInMoves(f: Flow, now: nat, timeout: nat, keep: Address, k: Key, remote: Remote, expires: nat, g: Flow)
    requires Capped(g) && Distinct(g) && k.protocol == 1 && k in Swept(f, now).leases
    requires g == Opened(Swept(f, now), SessionKey(k, remote), Session(expires, None), Swept(f, now).leases[k])
    ensures Moved(f, now, timeout, keep, g)
  {
    hide Swept, Capped, Distinct;
    assert Moves(f, now, timeout, keep, Renewed(SessionKey(k, remote), Session(expires, None), Swept(f, now).leases[k]), g);
  }

  lemma SweepMoves(f: Flow, now: nat, timeout: nat, keep: Address, g: Flow)
    requires Capped(g) && Distinct(g) && (g == Swept(f, now) || g == f)
    ensures Moved(f, now, timeout, keep, g)
  {
    hide Swept, Capped, Distinct;
    assert Moves(f, now, timeout, keep, if g == f then Idle else Refused, g);
  }

  lemma ReceivedMoves(f: Flow, now: nat, timeout: nat, keep: Address, ad: bool, p: Port, remote: Remote,
                      r: Result<Option<(Address, nat)>, ()>, g: Flow, domain: Address, domain': Address)
    requires Capped(g) && Distinct(g)
    requires Received(Swept(f, now), ad, p, remote, SatAdd(now, timeout), r, g, domain, domain')
    ensures Moved(f, now, timeout, keep, g)
  {
    hide Swept, Capped, Distinct, Admitted, FilterPasses;
    var h := Swept(f, now);
    if g == h {
      SweepMoves(f, now, timeout, keep, g);
    } else {
      var k :| Serves(h, k, p) && g == Opened(h, SessionKey(k, remote), Session(SatAdd(now, timeout), None), h.leases[k]);
      assert Moves(f, now, timeout, keep, Renewed(SessionKey(k, remote), Session(SatAdd(now, timeout), None), h.leases[k]), g);
    }
  }

  lemma MovedIsStep(f: Flow, now: nat, timeout: nat, keep: Address, g: Flow)
    requires Moved(f, now, timeout, keep, g)
    ensures Stepped(f, now, timeout, keep, g)
  {
    hide Capped, Distinct;
    var m: Move :| Moves(f, now, timeout, keep, m, g);
    assert Moves(g, now, timeout, keep, Idle, g);
  }

  lemma RotationMoves(f: Flow, now: nat, timeout: nat, keep: Address, domains: set<Address>, g: Flow)
    requires Capped(g) && Distinct(g) && keep in domains && g == Filtered(f, domains)
    ensures Moved(f, now, timeout, keep, g)
  {
    hide Filtered, Capped, Distinct;
    assert Moves(f, now, timeout, keep, Rotated(domains), g);
  }
}
