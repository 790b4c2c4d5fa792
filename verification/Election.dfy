/** The election of one on-link prefix among SNAC routers on the AIL, src/router/mod.rs. */
module Election {
  datatype AilState = Unknown | Suitable | BeginAdvertising | Advertising | Deprecating

  /** A prefix information option: a /64 on-link prefix, its order in the address space, whether
      it is a ULA, its lifetimes, and whether its sender is another SNAC router. */
  datatype Pio = Pio(prefix: nat, ula: bool, preferred: nat, valid: nat, snac: bool)

  predicate IsSuitable(p: Pio) { p.preferred >= 1800 && p.preferred <= p.valid }

  /** The option counts against a router that advertises the ULA prefix `own`. */
  predicate Beats(p: Pio, own: nat) { IsSuitable(p) && p.prefix != own && (!p.snac || !p.ula || p.prefix < own) }

  function Received(s: AilState, own: nat, p: Pio): AilState
  {
    if s.Advertising? && Beats(p, own) then Deprecating
    else if s.Unknown? && IsSuitable(p) then Suitable
    else s
  }

  /** The state changes of `tick`: `supplied` tells that a confirmed supplier is left, `over` that
      discovery ended. */
  function Ticked(s: AilState, supplied: bool, over: bool): AilState
  {
    if (s.Suitable? || s.Deprecating?) && !supplied then BeginAdvertising
    else if s.Unknown? && over then BeginAdvertising
    else s
  }

  /** A router advertisement was sent; `carried` tells that it had the router's own prefix. */
  function Sent(s: AilState, carried: bool): AilState
  {
    if s.BeginAdvertising? then Advertising
    else if s.Deprecating? && !carried then Suitable
    else s
  }

  class Link {
    const own: nat
    var state: AilState
    var deprecateAt: nat

    constructor (own: nat)
      ensures this.own == own && state == Unknown
    {
      this.own := own;
      state, deprecateAt := Unknown, 0;
    }

    /** All options of one advertisement, in order. An advertising router gives way to a suitable
        prefix of any other router, but to the ULA prefix of a SNAC router only if it is smaller. */
    method Receive(pios: seq<Pio>, now: nat)
      modifies this
      ensures old(state) == Advertising ==>
                && state == (if exists i :: 0 <= i < |pios| && pios[i].preferred >= 1800 && pios[i].preferred <= pios[i].valid && pios[i].prefix != own
                                            && (pios[i].snac && pios[i].ula ==> pios[i].prefix < own) then Deprecating else Advertising)
                && deprecateAt == if state == Deprecating then now else old(deprecateAt)
      ensures old(state) == Unknown ==>
                && state == (if exists i :: 0 <= i < |pios| && pios[i].preferred >= 1800 && pios[i].preferred <= pios[i].valid then Suitable else Unknown)
                && deprecateAt == old(deprecateAt)
      ensures old(state) in {Suitable, BeginAdvertising, Deprecating} ==> state == old(state) && deprecateAt == old(deprecateAt)
    {
      for i := 0 to |pios|
        invariant old(state) == Advertising ==>
                    && state == (if exists j :: 0 <= j < i && Beats(pios[j], own) then Deprecating else Advertising)
                    && deprecateAt == if state == Deprecating then now else old(deprecateAt)
        invariant old(state) == Unknown ==>
                    && state == (if exists j :: 0 <= j < i && IsSuitable(pios[j]) then Suitable else Unknown)
                    && deprecateAt == old(deprecateAt)
        invariant old(state) in {Suitable, BeginAdvertising, Deprecating} ==> state == old(state) && deprecateAt == old(deprecateAt)
      {
        if state == Advertising && Beats(pios[i], own) { deprecateAt := now; }
        state := Received(state, own, pios[i]);
      }
    }

    /** Without a supplier, or once discovery has ended in silence, the router takes over. */
    method Tick(supplied: bool, over: bool)
      modifies this`state
      ensures old(state) in {Suitable, Deprecating} ==> state == if supplied then old(state) else BeginAdvertising
      ensures old(state) == Unknown ==> state == if over then BeginAdvertising else Unknown
      ensures old(state) in {BeginAdvertising, Advertising} ==> state == old(state)
    {
      state := Ticked(state, supplied, over);
    }

    /** An advertisement went out; `carried` tells that it had the router's own prefix. */
    method Transmitted(carried: bool)
      modifies this`state
      ensures old(state) == BeginAdvertising ==> state == Advertising
      ensures old(state) == Deprecating ==> state == if carried then Deprecating else Suitable
      ensures old(state) in {Unknown, Suitable, Advertising} ==> state == old(state)
    {
      state := Sent(state, carried);
    }

    /** The own option: half an hour while the router advertises, and afterwards the whole seconds
        left of that half hour, without a preferred lifetime, as long as there are at least 206. */
    method Snapshot(now: nat) returns (pios: seq<Pio>)
      ensures state in {Unknown, Suitable} ==> pios == []
      ensures state in {BeginAdvertising, Advertising} ==> pios == [Pio(own, true, 1800, 1800, true)]
      ensures state == Deprecating ==>
                && (if now + 206_000 <= deprecateAt + 1_800_000 then |pios| == 1 && pios[0] == Pio(own, true, 0, pios[0].valid, true) else pios == [])
                && forall p :: p in pios ==>
                     && 206 <= p.valid <= 1800 && now + p.valid * 1000 <= deprecateAt + 1_800_000
                     && (p.valid == 1800 || now + (p.valid + 1) * 1000 > deprecateAt + 1_800_000)
    {
      if state == BeginAdvertising || state == Advertising {
        return [Pio(own, true, 1800, 1800, true)];
      }
      if state == Deprecating {
        var left := deprecateAt + 1_800_000 - now;
        var remaining := if left < 0 then 0 else if left > 1_800_000 then 1800 else left / 1000;
        if remaining >= 206 { return [Pio(own, true, 0, remaining, true)]; }
      }
      return [];
    }
  }

  // ---------------------------------------------------------------- many routers

  /** The routers' prefixes, states, and what each has heard since it last began to advertise;
      `wire` is every option ever sent: any of them may arrive at any time, often or never. */
  datatype Net = Net(own: seq<nat>, states: seq<AilState>, heard: seq<set<Pio>>, wire: set<Pio>)

  datatype Event =
    | Hear(i: nat, p: Pio)
    | Tick(i: nat, supplied: bool, over: bool)
    | Emit(i: nat, remaining: nat)
    | Done(i: nat, carried: bool)

  ghost predicate Wellformed(n: Net)
  {
    && |n.states| == |n.own| == |n.heard|
    && (forall i, j :: 0 <= i < j < |n.own| ==> n.own[i] != n.own[j])
    && (forall p :: p in n.wire ==> p.snac && p.ula && exists i :: 0 <= i < |n.own| && p.prefix == n.own[i])
  }

  /** No router advertises against a better option it has heard since it began. */
  ghost predicate Settled(n: Net)
    requires Wellformed(n)
  {
    forall i, p :: 0 <= i < |n.own| && n.states[i] == Advertising && p in n.heard[i] ==> !Beats(p, n.own[i])
  }

  function Own(own: nat, s: AilState, remaining: nat): set<Pio>
  {
    if s == BeginAdvertising || s == Advertising then {Pio(own, true, 1800, 1800, true)}
    else if s == Deprecating && remaining >= 206 then {Pio(own, true, 0, remaining, true)}
    else {}
  }

  predicate Enabled(n: Net, e: Event)
  {
    e.i < |n.own| && (e.Hear? ==> e.p in n.wire)
  }

  function Next(n: Net, e: Event): Net
    requires Enabled(n, e) && |n.states| == |n.own| == |n.heard|
  {
    var i, s := e.i, n.states[e.i];
    match e
    case Hear(_, p) =>
      n.(states := n.states[i := Received(s, n.own[i], p)], heard := n.heard[i := n.heard[i] + {p}])
    case Tick(_, supplied, over) =>
      n.(states := n.states[i := Ticked(s, supplied, over)])
    case Emit(_, remaining) =>
      n.(wire := n.wire + Own(n.own[i], s, remaining))
    case Done(_, carried) =>
      n.(states := n.states[i := Sent(s, carried)], heard := if s == BeginAdvertising then n.heard[i := {}] else n.heard)
  }

  /** What the net lets a router send is what a snapshot holds: never a suitable option unless it
      advertises, and always its own prefix. */
  lemma OwnExactly(own: nat, s: AilState, remaining: nat, p: Pio)
    ensures p in Own(own, s, remaining) <==>
              && p.prefix == own && p.ula && p.snac
              && ((s in {BeginAdvertising, Advertising} && p.preferred == p.valid == 1800)
                  || (s == Deprecating && p.preferred == 0 && p.valid == remaining >= 206))
  {
  }

  lemma StepKeeps(n: Net, e: Event)
    requires Wellformed(n) && Settled(n) && Enabled(n, e)
    ensures Wellformed(Next(n, e)) && Settled(Next(n, e))
  {
    var m := Next(n, e);
    forall p | p in m.wire
      ensures p.snac && p.ula && exists i :: 0 <= i < |m.own| && p.prefix == m.own[i]
    {
      if p !in n.wire { assert p.prefix == n.own[e.i]; }
    }
  }

  ghost predicate Run(nets: seq<Net>, events: seq<Event>)
  {
    && |nets| == |events| + 1 && Wellformed(nets[0]) && Settled(nets[0])
    && forall k :: 0 <= k < |events| ==>
         Wellformed(nets[k]) && Enabled(nets[k], events[k]) && nets[k + 1] == Next(nets[k], events[k])
  }

  lemma {:induction false} RunKeeps(nets: seq<Net>, events: seq<Event>, k: nat)
    requires Run(nets, events) && k <= |events|
    ensures Wellformed(nets[k]) && Settled(nets[k]) && nets[k].own == nets[0].own
    decreases k
  {
    if k > 0 {
      RunKeeps(nets, events, k - 1);
      StepKeeps(nets[k - 1], events[k - 1]);
    }
  }

  predicate Least(own: seq<nat>, i: nat) { i < |own| && forall j :: 0 <= j < |own| ==> own[i] <= own[j] }

  lemma LeastIsNotBeaten(n: Net, e: Event, i: nat)
    requires Wellformed(n) && Enabled(n, e) && Least(n.own, i) && n.states[i] == Advertising
    ensures Next(n, e).states[i] == Advertising
  {
    if e.Hear? && e.i == i {
      var j :| 0 <= j < |n.own| && e.p.prefix == n.own[j];
    }
  }

  /** Once the router with the least prefix advertises, it does so for ever. */
  lemma {:induction false} LeastStays(nets: seq<Net>, events: seq<Event>, i: nat, start: nat, end: nat)
    requires Run(nets, events) && start <= end <= |events|
    requires Least(nets[0].own, i) && |nets[start].states| == |nets[0].own| && nets[start].states[i] == Advertising
    ensures |nets[end].states| == |nets[0].own| && nets[end].states[i] == Advertising
    decreases end
  {
    RunKeeps(nets, events, end);
    if start < end {
      LeastStays(nets, events, i, start, end - 1);
      RunKeeps(nets, events, end - 1);
      LeastIsNotBeaten(nets[end - 1], events[end - 1], i);
    }
  }

  /** Two routers never advertise at once after each has heard the other: the greater gives way. */
  lemma NoTwoAdvertise(nets: seq<Net>, events: seq<Event>, k: nat, i: nat, j: nat, p: Pio, q: Pio)
    requires Run(nets, events) && k <= |events| && i < |nets[0].own| && j < |nets[0].own| && i != j
    requires |nets[k].states| == |nets[0].own| == |nets[k].heard|
    requires p in nets[k].heard[i] && IsSuitable(p) && p.prefix == nets[0].own[j]
    requires q in nets[k].heard[j] && IsSuitable(q) && q.prefix == nets[0].own[i]
    ensures !(nets[k].states[i] == Advertising && nets[k].states[j] == Advertising)
  {
    RunKeeps(nets, events, k);
    var n := nets[k];
    assert n.own[i] != n.own[j];
    assert n.states[i] == Advertising ==> !Beats(p, n.own[i]);
    assert n.states[j] == Advertising ==> !Beats(q, n.own[j]);
  }

  /** A router only ever gives way to a smaller prefix, so no two give way to each other. */
  lemma GivingWayIsOrdered(n: Net, e: Event)
    requires Wellformed(n) && Enabled(n, e) && n.states[e.i] == Advertising && Next(n, e).states[e.i] == Deprecating
    ensures e.Hear? && IsSuitable(e.p) && exists j :: 0 <= j < |n.own| && e.p.prefix == n.own[j] < n.own[e.i]
  {
    var j :| 0 <= j < |n.own| && e.p.prefix == n.own[j];
  }

  /** A smaller suitable prefix always displaces an advertising router. */
  lemma SmallerDisplaces(n: Net, i: nat, p: Pio)
    requires Wellformed(n) && Enabled(n, Hear(i, p)) && n.states[i] == Advertising && IsSuitable(p)
    ensures Next(n, Hear(i, p)).states[i] == Deprecating <==> p.prefix < n.own[i]
  {
  }
}
