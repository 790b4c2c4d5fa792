/** Which NAT64 prefixes to announce, src/nat64/selection.rs. */
module Selection {
  import opened Bytes
  import opened Results
  import opened Pref64

  const SLOTS := 8

  datatype Source = Local | Infrastructure | Configured

  datatype Promise = Promise(source: Source, until: nat, withdrawn: bool)

  datatype Announcement = Announcement(prefix: Prefix, lifetime: nat, source: Source)

  datatype Candidate = Candidate(prefix: Prefix, until: nat, source: Source)

  /** Evidence, each with the time it lasts to. */
  datatype Readiness = Readiness(pd: Option<nat>, ipv4: Option<nat>, stub: Option<nat>, translator: bool)

  datatype Policy = Policy(enabled: bool, allowWithoutPd: bool)

  /** The most that a PREF64 option can say of the time left: a multiple of eight seconds. */
  function Remaining(until: nat, now: nat): (r: nat)
    ensures r % 8 == 0 && r <= 65528
    ensures r > 0 ==> now + r * 1000 <= until
    ensures r == 65528 || now + (r + 8) * 1000 > until
  {
    if until < now then 0
    else
      var seconds := Min((until - now) / 1000, 65528) as nat;
      seconds - seconds % 8
  }

  function Live(promised: map<Prefix, Promise>, now: nat): (r: map<Prefix, Promise>)
    ensures forall p :: p in r <==> p in promised && now < promised[p].until
    ensures forall p :: p in r ==> r[p] == promised[p]
  {
    map p | p in promised && promised[p].until > now :: promised[p]
  }

  function Prefixes(list: seq<Announcement>): set<Prefix> { set a | a in list :: a.prefix }

  function Positive(list: seq<Announcement>): set<Prefix> { set a | a in list && a.lifetime > 0 :: a.prefix }

  predicate Unique(list: seq<Announcement>)
  {
    forall i, j :: 0 <= i < |list| && 0 <= j < |list| && list[i].prefix == list[j].prefix ==> i == j
  }

  /** What a successfully sent list does to the promises. */
  function Sent(promised: map<Prefix, Promise>, list: seq<Announcement>, now: nat): map<Prefix, Promise>
  {
    if list == [] then promised
    else
      var a, rest := list[|list| - 1], Sent(promised, list[..|list| - 1], now);
      if a.lifetime > 0 then
        rest[a.prefix := Promise(a.source, SatAdd(now, (Min(a.lifetime, 65528) - Min(a.lifetime, 65528) % 8) * 1000), false)]
      else if a.prefix in rest then rest[a.prefix := rest[a.prefix].(withdrawn := true)]
      else rest
  }

  lemma {:induction false} SentKeys(promised: map<Prefix, Promise>, list: seq<Announcement>, now: nat)
    ensures Sent(promised, list, now).Keys == promised.Keys + Positive(list)
    decreases |list|
  {
    if list != [] {
      var rest := list[..|list| - 1];
      SentKeys(promised, rest, now);
      assert list == rest + [list[|list| - 1]];
    }
  }

  /** The list is one that `advertised` takes. */
  predicate Acceptable(promised: map<Prefix, Promise>, list: seq<Announcement>)
  {
    && |list| <= SLOTS && (forall a :: a in list ==> Usable(a.prefix))
    && |promised.Keys + Positive(list)| <= SLOTS
  }

  /** A decision is still accepted when its transmission is reported later. */
  lemma FeedbackAccepted(promised: map<Prefix, Promise>, list: seq<Announcement>, later: nat)
    requires Acceptable(promised, list)
    ensures Acceptable(Live(promised, later), list)
  {
    hide Usable, Positive;
    SubsetSize(Live(promised, later).Keys + Positive(list), promised.Keys + Positive(list));
  }

  lemma {:induction false} UniqueSize(list: seq<Announcement>)
    requires Unique(list)
    ensures |Prefixes(list)| == |list|
    decreases |list|
  {
    if list == [] {
      assert Prefixes(list) == {};
    } else {
      var rest, a := list[..|list| - 1], list[|list| - 1];
      UniqueSize(rest);
      assert list == rest + [a];
      forall i | 0 <= i < |rest|
        ensures rest[i].prefix != a.prefix
      {
        assert list[i] == rest[i];
      }
      PrefixesAppend(rest, a);
    }
  }

  // ---------------------------------------------------------------- what is to be announced

  /** All evidence for a candidate lasts `seconds` more. */
  ghost predicate Allows(c: Candidate, seconds: nat, now: nat, ready: Readiness, policy: Policy, routes: map<Prefix, nat>)
  {
    var end := now + seconds * 1000;
    && end <= c.until && c.prefix in routes && end <= routes[c.prefix] && ready.stub.Some? && end <= ready.stub.value
    && (policy.allowWithoutPd || (ready.pd.Some? && end <= ready.pd.value))
  }

  /** It is announced for the greatest multiple of eight seconds that its evidence allows. */
  ghost predicate AnnouncedFor(a: Announcement, c: Candidate, now: nat, ready: Readiness, policy: Policy, routes: map<Prefix, nat>)
  {
    && a.prefix == c.prefix && a.source == c.source && a.lifetime % 8 == 0 && 0 < a.lifetime <= 65528
    && Allows(c, a.lifetime, now, ready, policy, routes) && (a.lifetime == 65528 || !Allows(c, a.lifetime + 8, now, ready, policy, routes))
  }

  /** How many of the first `n` candidates would need a new promise. */
  ghost function Newcomers(candidates: seq<Candidate>, n: nat, promised: map<Prefix, Promise>, now: nat, ready: Readiness, policy: Policy,
                           routes: map<Prefix, nat>): nat
    requires n <= |candidates|
  {
    if n == 0 then 0
    else
      Newcomers(candidates, n - 1, promised, now, ready, policy, routes)
      + if Allows(candidates[n - 1], 8, now, ready, policy, routes) && candidates[n - 1].prefix !in promised then 1 else 0
  }

  /** A candidate with eight seconds of all its evidence is announced when it is promised already
      or there is a slot for it after the candidates before. */
  ghost predicate Announced(candidates: seq<Candidate>, i: nat, promised: map<Prefix, Promise>, now: nat, ready: Readiness, policy: Policy,
                            routes: map<Prefix, nat>)
    requires i < |candidates|
  {
    && Allows(candidates[i], 8, now, ready, policy, routes)
    && (candidates[i].prefix in promised || |promised| + Newcomers(candidates, i, promised, now, ready, policy, routes) < 8)
  }

  /** The announced ones of the first `n` candidates, in order. */
  ghost function Chosen(candidates: seq<Candidate>, n: nat, promised: map<Prefix, Promise>, now: nat, ready: Readiness, policy: Policy,
                        routes: map<Prefix, nat>): seq<Candidate>
    requires n <= |candidates|
  {
    if n == 0 then []
    else
      Chosen(candidates, n - 1, promised, now, ready, policy, routes)
      + if Announced(candidates, n - 1, promised, now, ready, policy, routes) then [candidates[n - 1]] else []
  }

  /** A candidate is chosen exactly when it is to be announced. */
  lemma {:induction false} ChosenExactly(candidates: seq<Candidate>, n: nat, promised: map<Prefix, Promise>, now: nat, ready: Readiness,
                                         policy: Policy, routes: map<Prefix, nat>, i: nat)
    requires i < n <= |candidates| && forall i, j :: 0 <= i < j < |candidates| ==> candidates[i].prefix != candidates[j].prefix
    ensures candidates[i] in Chosen(candidates, n, promised, now, ready, policy, routes)
            <==> Announced(candidates, i, promised, now, ready, policy, routes)
  {
    hide Announced;
    if i < n - 1 {
      ChosenExactly(candidates, n - 1, promised, now, ready, policy, routes, i);
    } else {
      NotBefore(candidates, i, promised, now, ready, policy, routes, i);
    }
  }

  lemma {:induction false} NotBefore(candidates: seq<Candidate>, n: nat, promised: map<Prefix, Promise>, now: nat, ready: Readiness,
                                     policy: Policy, routes: map<Prefix, nat>, i: nat)
    requires n <= i < |candidates| && forall i, j :: 0 <= i < j < |candidates| ==> candidates[i].prefix != candidates[j].prefix
    ensures candidates[i] !in Chosen(candidates, n, promised, now, ready, policy, routes)
  {
    hide Announced;
    if n > 0 { NotBefore(candidates, n - 1, promised, now, ready, policy, routes, i); }
  }

  ghost predicate AsChosen(list: seq<Announcement>, chosen: seq<Candidate>, now: nat, ready: Readiness, policy: Policy, routes: map<Prefix, nat>)
  {
    |list| == |chosen| && forall k :: 0 <= k < |list| ==> AnnouncedFor(list[k], chosen[k], now, ready, policy, routes)
  }

  /** The router's own translator can serve for `seconds` more, half an hour at most. */
  ghost predicate LocalAllows(seconds: nat, now: nat, ready: Readiness)
  {
    && ready.translator && ready.ipv4.Some? && now + seconds * 1000 <= ready.ipv4.value
    && ready.stub.Some? && now + seconds * 1000 <= ready.stub.value && seconds <= 1800
  }

  ghost predicate LocalServes(promised: map<Prefix, Promise>, local: Prefix, now: nat, ready: Readiness, peer: bool)
  {
    && (peer ==> local in promised && promised[local].source == Local && !promised[local].withdrawn)
    && (local in promised || |promised| < 8) && LocalAllows(8, now, ready)
  }

  ghost predicate AsLocal(list: seq<Announcement>, promised: map<Prefix, Promise>, local: Prefix, now: nat, ready: Readiness, peer: bool)
  {
    if LocalServes(promised, local, now, ready, peer) then
      && |list| == 1 && list[0].prefix == local && list[0].source == Local && list[0].lifetime % 8 == 0
      && LocalAllows(list[0].lifetime, now, ready) && !LocalAllows(list[0].lifetime + 8, now, ready)
    else list == []
  }

  /** The whole of a decision. Nothing is announced while the service is off, the stub link is not
      ready or announcing is suppressed. Otherwise the chosen candidates are, in order; if there are
      none, then the local prefix, unless a candidate lacked only a slot and peers are left, which
      suppresses announcing until they are gone. */
  ghost predicate Decided(list: seq<Announcement>, was: bool, suppressed: bool, promised: map<Prefix, Promise>, local: Prefix, policy: Policy,
                          now: nat, ready: Readiness, candidates: seq<Candidate>, routes: map<Prefix, nat>, peer: bool, peersLeft: bool)
  {
    var chosen := Chosen(candidates, |candidates|, promised, now, ready, policy, routes);
    if !policy.enabled || ready.stub.None? || ready.stub.value <= now || (was && peersLeft) then
      list == [] && suppressed == (was && peersLeft)
    else if chosen != [] then
      AsChosen(list, chosen, now, ready, policy, routes) && !suppressed
    else if peersLeft && exists i :: 0 <= i < |candidates| && Allows(candidates[i], 8, now, ready, policy, routes) then
      list == [] && suppressed
    else AsLocal(list, promised, local, now, ready, peer) && !suppressed
  }

  /** A promised prefix is renewed as long as its evidence lasts, however many candidates there are. */
  lemma PromiseRenewed(list: seq<Announcement>, was: bool, suppressed: bool, promised: map<Prefix, Promise>, local: Prefix, policy: Policy,
                       now: nat, ready: Readiness, candidates: seq<Candidate>, routes: map<Prefix, nat>, peer: bool, peersLeft: bool, i: nat)
    requires Decided(list, was, suppressed, promised, local, policy, now, ready, candidates, routes, peer, peersLeft)
    requires policy.enabled && !(was && peersLeft) && i < |candidates| && candidates[i].prefix in promised
    requires forall i, j :: 0 <= i < j < |candidates| ==> candidates[i].prefix != candidates[j].prefix
    requires Allows(candidates[i], 8, now, ready, policy, routes)
    ensures exists k :: 0 <= k < |list| && AnnouncedFor(list[k], candidates[i], now, ready, policy, routes)
  {
    hide Chosen, AnnouncedFor;
    ChosenExactly(candidates, |candidates|, promised, now, ready, policy, routes, i);
    var chosen := Chosen(candidates, |candidates|, promised, now, ready, policy, routes);
    var k :| 0 <= k < |chosen| && chosen[k] == candidates[i];
    assert AnnouncedFor(list[k], chosen[k], now, ready, policy, routes);
  }

  /** The evidence a positive lifetime needs, all of it lasting at least as long. */
  ghost predicate Backed(a: Announcement, now: nat, ready: Readiness, policy: Policy, candidates: seq<Candidate>, routes: map<Prefix, nat>)
  {
    var end := now + a.lifetime * 1000;
    && a.lifetime % 8 == 0 && a.lifetime <= 65528 && policy.enabled && ready.stub.Some? && end <= ready.stub.value
    && if a.source == Local then ready.translator && ready.ipv4.Some? && end <= ready.ipv4.value && end <= now + 1_800_000
       else && (exists c :: c in candidates && c.prefix == a.prefix && c.source == a.source && end <= c.until)
            && a.prefix in routes && end <= routes[a.prefix]
            && (!policy.allowWithoutPd ==> ready.pd.Some? && end <= ready.pd.value)
  }

  /** The part of a decision that announces, with what is left for new promises. */
  ghost predicate Selected(promised: map<Prefix, Promise>, list: seq<Announcement>, slots: nat)
  {
    && Unique(list) && |list| <= SLOTS && (forall a :: a in list ==> Usable(a.prefix) && a.lifetime > 0)
    && |promised.Keys + Prefixes(list)| + slots <= SLOTS
  }

  lemma SelectOne(promised: map<Prefix, Promise>, list: seq<Announcement>, slots: nat, a: Announcement)
    requires Selected(promised, list, slots) && a.prefix !in Prefixes(list) && Usable(a.prefix) && a.lifetime > 0 && |list| < SLOTS
    requires a.prefix !in promised ==> slots > 0
    ensures Selected(promised, list + [a], if a.prefix in promised then slots else slots - 1)
    ensures Prefixes(list + [a]) == Prefixes(list) + {a.prefix}
  {
    hide Usable, Prefixes;
    PrefixesAppend(list, a);
    var before := promised.Keys + Prefixes(list);
    NotAmong(list, a.prefix);
    if a.prefix in promised {
      assert promised.Keys + (Prefixes(list) + {a.prefix}) == before;
    } else {
      assert promised.Keys + (Prefixes(list) + {a.prefix}) == before + {a.prefix};
    }
  }

  lemma NoPrefixes()
    ensures Prefixes([]) == {}
  {
  }

  lemma NotAmong(list: seq<Announcement>, p: Prefix)
    requires p !in Prefixes(list)
    ensures forall i :: 0 <= i < |list| ==> list[i].prefix != p
  {
    forall i | 0 <= i < |list|
      ensures list[i].prefix != p
    {
      assert list[i] in list;
    }
  }

  lemma PrefixesAppend(list: seq<Announcement>, a: Announcement)
    ensures Prefixes(list + [a]) == Prefixes(list) + {a.prefix}
  {
    forall p | p in Prefixes(list)
      ensures p in Prefixes(list + [a])
    {
      var b :| b in list && b.prefix == p;
      assert b in list + [a];
    }
    assert a in list + [a];
  }

  /** A PREF64 option with this announcement decodes to exactly what was announced. */
  ghost predicate Survives(a: Announcement)
  {
    Encode(a.prefix, a.lifetime).Some? && Decode(Encode(a.prefix, a.lifetime).value) == Some((a.prefix, a.lifetime))
  }

  lemma AnnouncedSurvives(a: Announcement)
    requires Usable(a.prefix) && a.lifetime % 8 == 0 && a.lifetime <= 65528
    ensures Survives(a)
  {
    hide Encode, Decode, Usable;
    RoundTrip(a.prefix, a.lifetime);
  }

  lemma AllSurvive(list: seq<Announcement>, promised: map<Prefix, Promise>, now: nat, ready: Readiness, policy: Policy,
                   candidates: seq<Candidate>, routes: map<Prefix, nat>)
    requires Acceptable(promised, list)
    requires forall a :: a in list && a.lifetime > 0 ==> Backed(a, now, ready, policy, candidates, routes)
    ensures forall a :: a in list ==> Survives(a)
  {
    hide Survives, Usable;
    forall a | a in list
      ensures Survives(a)
    {
      AnnouncedSurvives(a);
    }
  }

  /** The shape of the prefixes a router makes for itself: a ULA site, subnet ffff, /96. */
  predicate LocalShape(p: Prefix)
  {
    && p.length == 96 && p.address / 0x200_0000_0000_0000_0000_0000_0000_0000 == 0x7e
    && p.address / 0x1_0000_0000_0000_0000 % 65536 == 0xffff && p.address / 0x1_0000_0000 % 0x1_0000_0000 == 0
  }

  /** The router's own prefix below a site: subnet ffff, /96. Only a canonical ULA /48 is a site. */
  function LocalOf(site: Prefix): (r: Option<Prefix>)
  {
    if site.length != 48 || site.address / 0x200_0000_0000_0000_0000_0000_0000_0000 != 0x7e
       || site.address % 0x1_0000_0000_0000_0000_0000 != 0 then None
    else Some(Prefix(site.address + 0xffff_0000_0000_0000_0000, 96))
  }

  /** A site is a canonical /48 below fc00::/7, and its local prefix lies in it. */
  lemma LocalOfSite(site: Prefix)
    ensures LocalOf(site).Some? <==> && site.length == 48
                                     && 0xfc00 * 0x1_0000_0000_0000_0000_0000_0000_0000 <= site.address < 0xfe00 * 0x1_0000_0000_0000_0000_0000_0000_0000
                                     && exists n: nat :: site.address == 0x1_0000_0000_0000_0000_0000 * n
    ensures LocalOf(site).Some? ==> LocalOf(site).value.length == 96
                                    && site.address <= LocalOf(site).value.address < site.address + 0x1_0000_0000_0000_0000_0000
  {
    var n := site.address / 0x1_0000_0000_0000_0000_0000;
    assert site.address % 0x1_0000_0000_0000_0000_0000 == 0 ==> site.address == 0x1_0000_0000_0000_0000_0000 * n;
  }

  lemma LocalIsUsable(site: Prefix)
    requires LocalOf(site).Some?
    ensures Usable(LocalOf(site).value) && LocalShape(LocalOf(site).value)
  {
    var n := site.address / 0x1_0000_0000_0000_0000_0000;
    assert site.address == 0x1_0000_0000_0000_0000_0000 * n;
    LocalArithmetic(n, LocalOf(site).value.address);
    assert Range(6) == 0x1_0000_0000_0000_0000_0000_0000;
  }

  lemma LocalArithmetic(n: nat, a: nat)
    requires a == 0x1_0000_0000_0000_0000_0000 * n + 0xffff_0000_0000_0000_0000
    ensures a % 0x1_0000_0000 == 0 && a / 0x1_0000_0000 % 0x1_0000_0000 == 0 && a / 0x1_0000_0000_0000_0000 % 65536 == 0xffff
    ensures a / 0x1_0000_0000_0000_0000_0000 == n
  {
    assert a == 0x1_0000_0000 * (0x1_0000_0000_0000 * n + 0xffff_0000_0000);
    assert a / 0x1_0000_0000 == 0x1_0000_0000 * (0x1_0000 * n + 0xffff);
    assert a / 0x1_0000_0000_0000_0000 == 0x1_0000 * n + 0xffff;
  }

  class Selector {
    var promised: map<Prefix, Promise>
    var local: Prefix
    var policy: Policy
    var suppressed: bool

    ghost predicate Valid()
      reads this
    {
      |promised| <= SLOTS && Usable(local) && forall p :: p in promised ==> Usable(p)
    }

    constructor (local: Prefix, policy: Policy)
      requires Usable(local)
      ensures Valid() && promised == map[]
    {
      promised, this.local, this.policy, suppressed := map[], local, policy, false;
    }

    /** A promise read back after a restart. */
    method Restore(prefix: Prefix, promise: Promise) returns (ok: bool)
      requires Valid()
      modifies this`promised
      ensures Valid() && promised == if ok then old(promised)[prefix := promise] else old(promised)
      ensures ok <==> && Usable(prefix) && (promise.source == Local ==> LocalShape(prefix))
                      && |old(promised)| < SLOTS && prefix !in old(promised)
    {
      hide Usable, LocalShape;
      if !Usable(prefix) || (promise.source == Local && !LocalShape(prefix)) || |promised| == SLOTS || prefix in promised { return false; }
      promised := promised[prefix := promise];
      return true;
    }

    /** The site changes: the new local prefix needs a slot, or nothing but expiry happens. The old
        one stays promised until it is taken back or ends. */
    method RotateLocal(site: Prefix, now: nat) returns (ok: bool)
      requires Valid()
      modifies this`promised, this`local
      ensures Valid()
      ensures LocalOf(site).None? ==> !ok && promised == old(promised) && local == old(local)
      ensures LocalOf(site).Some? ==>
                && promised == Live(old(promised), now) && local == (if ok then LocalOf(site).value else old(local))
                && (ok <==> LocalOf(site).value == old(local) || LocalOf(site).value in promised || |promised| < SLOTS)
    {
      hide Usable, LocalOf;
      var next := LocalOf(site);
      if next.None? { return false; }
      LocalIsUsable(site);
      LiveSize(promised, now);
      promised := Live(promised, now);
      if next.value != local && next.value !in promised && |promised| == SLOTS { return false; }
      local := next.value;
      return true;
    }

    /** Feedback: the list was sent. */
    method Advertised(list: seq<Announcement>, now: nat) returns (ok: bool)
      requires Valid()
      modifies this`promised
      ensures Valid() && ok == Acceptable(Live(old(promised), now), list)
      ensures promised == if ok then Sent(Live(old(promised), now), list, now) else old(promised)
    {
      hide Usable;
      if |list| > SLOTS { return false; }
      var next := Live(promised, now);
      for i := 0 to |list|
        invariant next == Sent(Live(promised, now), list[..i], now) && forall j :: 0 <= j < i ==> Usable(list[j].prefix)
      {
        if !Usable(list[i].prefix) { return false; }
        var a := list[i];
        assert list[..i + 1][..i] == list[..i];
        if a.lifetime > 0 {
          next := next[a.prefix := Promise(a.source, SatAdd(now, (Min(a.lifetime, 65528) - Min(a.lifetime, 65528) % 8) * 1000), false)];
        } else if a.prefix in next {
          next := next[a.prefix := next[a.prefix].(withdrawn := true)];
        }
      }
      assert list[..|list|] == list;
      SentKeys(Live(promised, now), list, now);
      assert |next| == |next.Keys|;
      if |next| > SLOTS { return false; }
      promised := next;
      return true;
    }

    /** A decision: at most eight announcements with different prefixes, which `Advertised` will
        take; every positive lifetime is backed; every promise is renewed or taken back. */
    method Select(now: nat, ready: Readiness, candidates: seq<Candidate>, routes: map<Prefix, nat>, peer: bool, peersLeft: bool)
      returns (list: seq<Announcement>, ghost active: seq<Announcement>)
      requires Valid() && (forall c :: c in candidates ==> Usable(c.prefix) && c.source != Local)
      requires forall i, j :: 0 <= i < j < |candidates| ==> candidates[i].prefix != candidates[j].prefix
      modifies this`promised, this`suppressed
      ensures Valid() && promised == Live(old(promised), now)
      ensures Decided(active, old(suppressed), suppressed, promised, local, policy, now, ready, candidates, routes, peer, peersLeft)
      ensures |active| <= |list| && list[..|active|] == active
      ensures forall i :: |active| <= i < |list| ==>
                list[i].prefix in promised && list[i] == Announcement(list[i].prefix, 0, promised[list[i].prefix].source)
      ensures |list| <= SLOTS && Unique(list) && Acceptable(promised, list)
      ensures forall a :: a in list ==> Survives(a)
      ensures forall a :: a in list && a.lifetime > 0 ==> Backed(a, now, ready, policy, candidates, routes)
      ensures forall p :: p in promised && !promised[p].withdrawn ==> p in Prefixes(list)
      ensures forall a :: a in list && a.lifetime == 0 ==> a.prefix in promised && !promised[a.prefix].withdrawn
    {
      hide Usable, Backed, Selected, Completed, Prefixes, Acceptable, Unique, Live, Survives, Decided;
      LiveSize(promised, now);
      list := SelectActive(now, ready, candidates, routes, peer, peersLeft);
      active := list;
      var left := promised.Keys;
      CompleteNone(promised, active);
      assert promised.Keys - left == {};
      while left != {}
        invariant Valid() && promised == Live(old(promised), now)
        invariant left <= promised.Keys && Completed(promised, active, list, promised.Keys - left)
        invariant Decided(active, old(suppressed), suppressed, promised, local, policy, now, ready, candidates, routes, peer, peersLeft)
        invariant |active| <= |list| && list[..|active|] == active
        invariant forall i :: |active| <= i < |list| ==>
                    list[i].prefix in promised && list[i] == Announcement(list[i].prefix, 0, promised[list[i].prefix].source)
        decreases |left|
      {
        var p :| p in left;
        CompleteOne(promised, active, list, promised.Keys - left, p);
        assert promised.Keys - (left - {p}) == promised.Keys - left + {p};
        if p !in Prefixes(list) && !promised[p].withdrawn {
          list := list + [Announcement(p, 0, promised[p].source)];
        }
        left := left - {p};
      }
      assert promised.Keys - left == promised.Keys;
      CompleteAll(promised, active, list);
      AllSurvive(list, promised, now, ready, policy, candidates, routes);
    }

    /** What to announce now. */
    method SelectActive(now: nat, ready: Readiness, candidates: seq<Candidate>, routes: map<Prefix, nat>, peer: bool, peersLeft: bool)
      returns (list: seq<Announcement>)
      requires Valid() && (forall c :: c in candidates ==> Usable(c.prefix) && c.source != Local)
      requires forall i, j :: 0 <= i < j < |candidates| ==> candidates[i].prefix != candidates[j].prefix
      modifies this`promised, this`suppressed
      ensures Valid() && promised == Live(old(promised), now) && Selected(promised, list, 0)
      ensures forall a :: a in list ==> Backed(a, now, ready, policy, candidates, routes)
      ensures Decided(list, old(suppressed), suppressed, promised, local, policy, now, ready, candidates, routes, peer, peersLeft)
    {
      hide Usable, Backed, Selected, Live, Allows, AnnouncedFor, Chosen, AsLocal, Prefixes;
      LiveSize(promised, now);
      promised := Live(promised, now);
      NothingSelected(promised, SLOTS - |promised|);
      if !peersLeft { suppressed := false; }
      if !policy.enabled || ready.stub.None? || ready.stub.value <= now || suppressed { return []; }
      var pd := if ready.pd.Some? && ready.pd.value > now then ready.pd else None;
      if pd.Some? || policy.allowWithoutPd {
        var failed;
        list, failed := Gather(now, ready, pd, candidates, routes);
        if list != [] { return; }
        if failed && peersLeft {
          suppressed := true;
          return [];
        }
      } else {
        WithoutDelegation(candidates, |candidates|, promised, now, ready, policy, routes);
      }
      list := SelectLocal(now, ready, peer, candidates, routes);
    }

    /** The router's own translator, unless a peer already serves. */
    method SelectLocal(now: nat, ready: Readiness, peer: bool, ghost candidates: seq<Candidate>, ghost routes: map<Prefix, nat>)
      returns (list: seq<Announcement>)
      requires Valid() && policy.enabled && ready.stub.Some?
      ensures Selected(promised, list, 0)
      ensures AsLocal(list, promised, local, now, ready, peer)
      ensures forall a :: a in list ==> Backed(a, now, ready, policy, candidates, routes)
    {
      hide Usable, Backed, Selected, Remaining, Prefixes;
      NoPrefixes();
      NothingSelected(promised, SLOTS - |promised|);
      var active := local in promised && promised[local].source == Local && !promised[local].withdrawn;
      if peer && !active { return []; }
      if ready.translator && ready.ipv4.Some? && ready.ipv4.value > now {
        var lifetime := Remaining(Min(Min(ready.ipv4.value, ready.stub.value), now + 1_800_000), now);
        if lifetime > 0 && (local in promised || |promised| < SLOTS) {
          var a := Announcement(local, lifetime, Local);
          LocalIsBacked(a, now, ready, policy, candidates, routes);
          SelectOne(promised, [], SLOTS - |promised|, a);
          assert [] + [a] == [a];
          FewerSlots(promised, [a], if local in promised then SLOTS - |promised| else SLOTS - |promised| - 1);
          return [a];
        }
      }
      return [];
    }

    /** Candidates in order, as long as there is room. */
    method Gather(now: nat, ready: Readiness, pd: Option<nat>, candidates: seq<Candidate>, routes: map<Prefix, nat>)
      returns (list: seq<Announcement>, failed: bool)
      requires Valid() && policy.enabled && ready.stub.Some? && pd == (if ready.pd.Some? && ready.pd.value > now then ready.pd else None)
      requires forall c :: c in candidates ==> Usable(c.prefix) && c.source != Local
      requires forall i, j :: 0 <= i < j < |candidates| ==> candidates[i].prefix != candidates[j].prefix
      ensures Selected(promised, list, 0)
      ensures forall a :: a in list ==> Backed(a, now, ready, policy, candidates, routes)
      ensures AsChosen(list, Chosen(candidates, |candidates|, promised, now, ready, policy, routes), now, ready, policy, routes)
      ensures list == [] ==> (failed <==> exists i :: 0 <= i < |candidates| && Allows(candidates[i], 8, now, ready, policy, routes))
    {
      hide Usable, Backed, Selected, Prefixes, Allows, AnnouncedFor, AsChosen, Chosen, SlotsAfter;
      var slots: nat := SLOTS - |promised|;
      list, failed := [], false;
      NothingSelected(promised, slots);
      NothingChosen(candidates, promised, now, ready, policy, routes);
      NoPrefixes();
      var i := 0;
      while i < |candidates| && |list| < SLOTS
        invariant 0 <= i <= |candidates| && |list| <= SLOTS && Selected(promised, list, slots)
        invariant forall p :: p in Prefixes(list) ==> exists j :: 0 <= j < i && candidates[j].prefix == p
        invariant forall a :: a in list ==> Backed(a, now, ready, policy, candidates, routes)
        invariant AsChosen(list, Chosen(candidates, i, promised, now, ready, policy, routes), now, ready, policy, routes)
        invariant slots == SlotsAfter(candidates, i, promised, now, ready, policy, routes)
        invariant list == [] ==> (failed <==> exists j :: 0 <= j < i && Allows(candidates[j], 8, now, ready, policy, routes))
      {
        var c := candidates[i];
        assert c in candidates;
        var lifetime := Evidence(c, now, ready, pd, routes);
        ghost var a := Announcement(c.prefix, lifetime, c.source);
        ChooseOne(candidates, i, promised, now, ready, policy, routes, list, slots, a);
        i := i + 1;
        if lifetime == 0 { continue; }
        if c.prefix !in promised && slots == 0 {
          failed := true;
          continue;
        }
        CandidateIsBacked(a, c, now, ready, policy, candidates, routes);
        SelectOne(promised, list, slots, a);
        if c.prefix !in promised { slots := slots - 1; }
        list := list + [Announcement(c.prefix, lifetime, c.source)];
      }
      if i < |candidates| {
        AllTaken(promised, list, slots);
        TakenBefore(candidates, i, promised, list);
        NoneFollow(candidates, i, promised, now, ready, policy, routes, |candidates|);
      }
      FewerSlots(promised, list, slots);
    }

    /** How long all the evidence for a candidate lasts. */
    method Evidence(c: Candidate, now: nat, ready: Readiness, pd: Option<nat>, routes: map<Prefix, nat>) returns (lifetime: nat)
      requires ready.stub.Some? && pd == (if ready.pd.Some? && ready.pd.value > now then ready.pd else None)
      ensures lifetime == 0 <==> !Allows(c, 8, now, ready, policy, routes)
      ensures lifetime > 0 ==> AnnouncedFor(Announcement(c.prefix, lifetime, c.source), c, now, ready, policy, routes)
    {
      hide Remaining;
      if c.prefix !in routes || (!policy.allowWithoutPd && pd.None?) { return 0; }
      var until := Min(Min(c.until, routes[c.prefix]), ready.stub.value);
      lifetime := Remaining(if policy.allowWithoutPd then until else Min(until, pd.value), now);
    }
  }

  /** The slots left after the first `n` candidates. */
  ghost function SlotsAfter(candidates: seq<Candidate>, n: nat, promised: map<Prefix, Promise>, now: nat, ready: Readiness, policy: Policy,
                            routes: map<Prefix, nat>): nat
    requires n <= |candidates|
  {
    var used := |promised| + Newcomers(candidates, n, promised, now, ready, policy, routes);
    if used <= 8 then 8 - used else 0
  }

  lemma NothingChosen(candidates: seq<Candidate>, promised: map<Prefix, Promise>, now: nat, ready: Readiness, policy: Policy, routes: map<Prefix, nat>)
    requires |promised| <= SLOTS
    ensures AsChosen([], Chosen(candidates, 0, promised, now, ready, policy, routes), now, ready, policy, routes)
    ensures SlotsAfter(candidates, 0, promised, now, ready, policy, routes) == SLOTS - |promised|
  {
  }

  lemma ChooseOne(candidates: seq<Candidate>, i: nat, promised: map<Prefix, Promise>, now: nat, ready: Readiness, policy: Policy,
                  routes: map<Prefix, nat>, list: seq<Announcement>, slots: nat, a: Announcement)
    requires i < |candidates| && AsChosen(list, Chosen(candidates, i, promised, now, ready, policy, routes), now, ready, policy, routes)
    requires slots == SlotsAfter(candidates, i, promised, now, ready, policy, routes)
    ensures var c, allowed := candidates[i], Allows(candidates[i], 8, now, ready, policy, routes);
            var chosen := Chosen(candidates, i + 1, promised, now, ready, policy, routes);
            var left := SlotsAfter(candidates, i + 1, promised, now, ready, policy, routes);
            && (!allowed || (c.prefix !in promised && slots == 0) ==> AsChosen(list, chosen, now, ready, policy, routes) && left == slots)
            && (allowed && (c.prefix in promised || slots > 0) && AnnouncedFor(a, c, now, ready, policy, routes) ==>
                  && AsChosen(list + [a], chosen, now, ready, policy, routes)
                  && left == if c.prefix in promised then slots else slots - 1)
  {
    hide Allows, AnnouncedFor;
    var before := Chosen(candidates, i, promised, now, ready, policy, routes);
    assert before + [] == before;
  }

  /** Eight announcements use every promise and every slot. */
  lemma AllTaken(promised: map<Prefix, Promise>, list: seq<Announcement>, slots: nat)
    requires Selected(promised, list, slots) && |list| == SLOTS
    ensures slots == 0 && promised.Keys <= Prefixes(list)
  {
    hide Usable, Prefixes;
    UniqueSize(list);
    var all := promised.Keys + Prefixes(list);
    SubsetSize(Prefixes(list), all);
    assert all == Prefixes(list) + (all - Prefixes(list));
    assert |all| == |Prefixes(list)| + |all - Prefixes(list)|;
    assert all - Prefixes(list) == {};
  }

  lemma TakenBefore(candidates: seq<Candidate>, i: nat, promised: map<Prefix, Promise>, list: seq<Announcement>)
    requires i <= |candidates| && forall i, j :: 0 <= i < j < |candidates| ==> candidates[i].prefix != candidates[j].prefix
    requires promised.Keys <= Prefixes(list) && forall p :: p in Prefixes(list) ==> exists j :: 0 <= j < i && candidates[j].prefix == p
    ensures forall k :: i <= k < |candidates| ==> candidates[k].prefix !in promised
  {
    hide Prefixes;
  }

  lemma NoneNext(candidates: seq<Candidate>, n: nat, promised: map<Prefix, Promise>, now: nat, ready: Readiness, policy: Policy,
                 routes: map<Prefix, nat>)
    requires n < |candidates| && candidates[n].prefix !in promised && SlotsAfter(candidates, n, promised, now, ready, policy, routes) == 0
    ensures Chosen(candidates, n + 1, promised, now, ready, policy, routes) == Chosen(candidates, n, promised, now, ready, policy, routes)
    ensures SlotsAfter(candidates, n + 1, promised, now, ready, policy, routes) == 0
  {
    hide Allows;
    assert !Announced(candidates, n, promised, now, ready, policy, routes);
  }

  lemma {:induction false} NoneFollow(candidates: seq<Candidate>, i: nat, promised: map<Prefix, Promise>, now: nat, ready: Readiness,
                                      policy: Policy, routes: map<Prefix, nat>, n: nat)
    requires i <= n <= |candidates| && forall k :: i <= k < |candidates| ==> candidates[k].prefix !in promised
    requires SlotsAfter(candidates, i, promised, now, ready, policy, routes) == 0
    ensures Chosen(candidates, n, promised, now, ready, policy, routes) == Chosen(candidates, i, promised, now, ready, policy, routes)
    ensures SlotsAfter(candidates, n, promised, now, ready, policy, routes) == 0
  {
    hide SlotsAfter, Chosen;
    if n > i {
      NoneFollow(candidates, i, promised, now, ready, policy, routes, n - 1);
      NoneNext(candidates, n - 1, promised, now, ready, policy, routes);
    }
  }

  lemma {:induction false} WithoutDelegation(candidates: seq<Candidate>, n: nat, promised: map<Prefix, Promise>, now: nat, ready: Readiness,
                                             policy: Policy, routes: map<Prefix, nat>)
    requires n <= |candidates| && !policy.allowWithoutPd && (ready.pd.None? || ready.pd.value <= now)
    ensures Chosen(candidates, n, promised, now, ready, policy, routes) == []
    ensures forall i :: 0 <= i < n ==> !Allows(candidates[i], 8, now, ready, policy, routes)
  {
    if n > 0 { WithoutDelegation(candidates, n - 1, promised, now, ready, policy, routes); }
  }

  lemma LiveSize(promised: map<Prefix, Promise>, now: nat)
    ensures |Live(promised, now)| <= |promised| && Live(promised, now).Keys <= promised.Keys
  {
    var kept := Live(promised, now);
    SubsetSize(kept.Keys, promised.Keys);
    assert |kept| == |kept.Keys| && |promised| == |promised.Keys|;
  }

  lemma NothingSelected(promised: map<Prefix, Promise>, slots: nat)
    requires |promised| + slots <= SLOTS
    ensures Selected(promised, [], slots) && Selected(promised, [], 0)
  {
    assert promised.Keys + Prefixes([]) == promised.Keys && |promised| == |promised.Keys|;
  }

  lemma FewerSlots(promised: map<Prefix, Promise>, list: seq<Announcement>, slots: nat)
    requires Selected(promised, list, slots)
    ensures Selected(promised, list, 0)
  {
    hide Usable;
  }

  lemma LocalIsBacked(a: Announcement, now: nat, ready: Readiness, policy: Policy, candidates: seq<Candidate>, routes: map<Prefix, nat>)
    requires policy.enabled && ready.stub.Some? && ready.ipv4.Some? && ready.translator && a.source == Local && a.lifetime > 0
    requires a.lifetime == Remaining(Min(Min(ready.ipv4.value, ready.stub.value), now + 1_800_000), now)
    ensures Backed(a, now, ready, policy, candidates, routes)
  {
  }

  lemma CandidateIsBacked(a: Announcement, c: Candidate, now: nat, ready: Readiness, policy: Policy, candidates: seq<Candidate>, routes: map<Prefix, nat>)
    requires policy.enabled && c in candidates && c.source != Local && AnnouncedFor(a, c, now, ready, policy, routes)
    ensures Backed(a, now, ready, policy, candidates, routes)
  {
  }

  /** The list after the promises in `done` have been looked at. */
  ghost predicate Completed(promised: map<Prefix, Promise>, active: seq<Announcement>, list: seq<Announcement>, done: set<Prefix>)
  {
    && Selected(promised, active, 0) && Unique(list)
    && Prefixes(list) <= promised.Keys + Prefixes(active)
    && (forall a :: a in list ==> a in active || (a.lifetime == 0 && a.prefix in promised && !promised[a.prefix].withdrawn))
    && (forall p :: p in done && p in promised && !promised[p].withdrawn ==> p in Prefixes(list))
  }

  lemma CompleteNone(promised: map<Prefix, Promise>, active: seq<Announcement>)
    requires Selected(promised, active, 0)
    ensures Completed(promised, active, active, {})
  {
    hide Usable;
  }

  lemma CompleteOne(promised: map<Prefix, Promise>, active: seq<Announcement>, list: seq<Announcement>, done: set<Prefix>, p: Prefix)
    requires Completed(promised, active, list, done) && p in promised
    ensures var more := if p !in Prefixes(list) && !promised[p].withdrawn then list + [Announcement(p, 0, promised[p].source)] else list;
            Completed(promised, active, more, done + {p})
  {
    hide Usable, Selected;
    if p !in Prefixes(list) && !promised[p].withdrawn {
      var a := Announcement(p, 0, promised[p].source);
      assert Prefixes(list + [a]) == Prefixes(list) + {p};
      forall i | 0 <= i < |list|
        ensures list[i].prefix != p
      {
        assert list[i] in list;
      }
    }
  }

  lemma PositiveAmong(list: seq<Announcement>)
    ensures Positive(list) <= Prefixes(list)
  {
  }

  lemma CompleteAll(promised: map<Prefix, Promise>, active: seq<Announcement>, list: seq<Announcement>)
    requires Completed(promised, active, list, promised.Keys) && forall p :: p in promised ==> Usable(p)
    ensures |list| <= SLOTS && Unique(list) && Acceptable(promised, list)
    ensures forall a :: a in list && a.lifetime > 0 ==> a in active
    ensures forall p :: p in promised && !promised[p].withdrawn ==> p in Prefixes(list)
    ensures forall a :: a in list && a.lifetime == 0 ==> a.prefix in promised && !promised[a.prefix].withdrawn
  {
    hide Usable, Prefixes, Positive, Unique;
    UniqueSize(list);
    PositiveAmong(list);
    SubsetSize(Prefixes(list), promised.Keys + Prefixes(active));
    SubsetSize(promised.Keys + Positive(list), promised.Keys + Prefixes(active));
  }
}
