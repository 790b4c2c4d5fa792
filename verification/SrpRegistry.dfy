/** First-come-first-served name ownership, src/srp/registry.rs. */
module SrpRegistry {
  import opened Bytes
  import opened Results

  type Name = nat
  type PublicKey = nat
  type Digest = nat

  datatype Error = YxDomain | Refused | ServFail

  datatype Grant = Grant(lease: nat, keyLease: nat)

  datatype Host = Host(key: PublicKey, expires: nat, keyExpires: nat)

  datatype Service = Service(host: Name, key: PublicKey, expires: nat, keyExpires: nat)

  datatype Receipt = Receipt(grant: Grant, receivedAt: nat, expires: nat)

  datatype Item = Item(name: Name, deleted: bool)

  /** An authenticated update. */
  datatype Update = Update(host: Name, services: seq<Item>, key: PublicKey, lease: nat, keyLease: nat, extended: bool, digest: Digest)

  datatype Policy = Policy(maxLease: nat, maxKeyLease: nat)

  datatype Book = Book(hosts: map<Name, Host>, services: map<Name, Service>)

  const HOSTS := 128
  const SERVICES := 1024
  const PER_HOST := 8
  const REPLIES := 128

  // ---------------------------------------------------------------- ownership

  predicate HostLive(b: Book, n: Name, now: nat) { n in b.hosts && b.hosts[n].keyExpires > now }

  predicate ServiceLive(b: Book, n: Name, now: nat) { n in b.services && b.services[n].keyExpires > now }

  /** The live owner of a name. */
  function Owner(b: Book, n: Name, now: nat): Option<PublicKey>
  {
    if HostLive(b, n, now) then Some(b.hosts[n].key)
    else if ServiceLive(b, n, now) then Some(b.services[n].key)
    else None
  }

  /** A name live as a host and as a service has one key. */
  ghost predicate Sole(b: Book, now: nat)
  {
    forall n :: HostLive(b, n, now) && ServiceLive(b, n, now) ==> b.hosts[n].key == b.services[n].key
  }

  predicate Names(u: Update, n: Name) { n == u.host || exists i :: 0 <= i < |u.services| && u.services[i].name == n }

  /** No name of the update belongs to another key. */
  ghost predicate Permitted(b: Book, u: Update, now: nat)
  {
    forall n :: Names(u, n) ==> Owner(b, n, now) in {None, Some(u.key)}
  }

  // ---------------------------------------------------------------- transitions

  /** Records end with their own lease, with their host's, or with their host's key. */
  predicate RecordsLive(hosts: map<Name, Host>, s: Service, now: nat)
  {
    s.expires > now && s.host in hosts && hosts[s.host].expires > now && hosts[s.host].key == s.key
  }

  function Expired(b: Book, now: nat): Book
  {
    var hosts := map n | n in b.hosts && b.hosts[n].keyExpires > now ::
      if b.hosts[n].expires <= now then b.hosts[n].(expires := 0) else b.hosts[n];
    Book(hosts, map n | n in b.services && b.services[n].keyExpires > now ::
      if RecordsLive(hosts, b.services[n], now) then b.services[n] else b.services[n].(expires := 0))
  }

  /** Everything this key registered under this host. */
  predicate Under(s: Service, u: Update) { s.host == u.host && s.key == u.key }

  function Added(services: map<Name, Service>, items: seq<Item>, u: Update, g: Grant, now: nat): map<Name, Service>
  {
    if items == [] then services
    else
      var i := items[|items| - 1];
      var live := !i.deleted && g.lease != 0;
      Added(services, items[..|items| - 1], u, g, now)
      [i.name := Service(u.host, u.key, if live then SatAdd(now, g.lease * 1000) else 0, SatAdd(now, g.keyLease * 1000))]
  }

  /** The edit of the copied registry. */
  function Applied(b: Book, u: Update, g: Grant, now: nat): Book
  {
    if g.keyLease == 0 then
      Book(b.hosts - {u.host}, map n | n in b.services && !Under(b.services[n], u) :: b.services[n])
    else
      var host := Host(u.key, if g.lease == 0 then 0 else SatAdd(now, g.lease * 1000), SatAdd(now, g.keyLease * 1000));
      var services := map n | n in b.services ::
        if g.lease == 0 && Under(b.services[n], u) then b.services[n].(expires := 0) else b.services[n];
      Book(b.hosts[u.host := host], Added(services, u.services, u, g, now))
  }

  datatype Event = Expire(now: nat) | Accept(now: nat, u: Update, g: Grant)

  ghost predicate Allowed(b: Book, e: Event) { e.Accept? ==> Permitted(b, e.u, e.now) }

  function Step(b: Book, e: Event): Book
  {
    match e
    case Expire(now) => Expired(b, now)
    case Accept(now, u, g) => Applied(Expired(b, now), u, g, now)
  }

  lemma {:induction false} AddedAt(services: map<Name, Service>, items: seq<Item>, u: Update, g: Grant, now: nat, n: Name)
    ensures var r := Added(services, items, u, g, now);
            if exists i :: 0 <= i < |items| && items[i].name == n then
              n in r && r[n].key == u.key && r[n].host == u.host && r[n].keyExpires == SatAdd(now, g.keyLease * 1000)
            else (n in r <==> n in services) && (n in r ==> r[n] == services[n])
    decreases |items|
  {
    if items != [] {
      var rest := items[..|items| - 1];
      AddedAt(services, rest, u, g, now, n);
      assert forall i :: 0 <= i < |rest| ==> items[i] == rest[i];
    }
  }

  /** What expiry does to one name's ownership: nothing, while it is live. */
  lemma ExpiredOwner(b: Book, n: Name, now: nat)
    ensures HostLive(Expired(b, now), n, now) == HostLive(b, n, now) && ServiceLive(Expired(b, now), n, now) == ServiceLive(b, n, now)
    ensures HostLive(b, n, now) ==> n in Expired(b, now).hosts && Expired(b, now).hosts[n].key == b.hosts[n].key
                                    && Expired(b, now).hosts[n].keyExpires == b.hosts[n].keyExpires
    ensures ServiceLive(b, n, now) ==> n in Expired(b, now).services && Expired(b, now).services[n].key == b.services[n].key
                                       && Expired(b, now).services[n].host == b.services[n].host
                                       && Expired(b, now).services[n].keyExpires == b.services[n].keyExpires
    ensures n in Expired(b, now).hosts ==> HostLive(b, n, now)
    ensures n in Expired(b, now).services ==> ServiceLive(b, n, now)
  {
  }

  /** What an accepted update does to one name. */
  lemma AppliedAt(b: Book, u: Update, g: Grant, now: nat, n: Name)
    ensures var r := Applied(b, u, g, now);
            && (n == u.host && g.keyLease == 0 ==> n !in r.hosts)
            && (n == u.host && g.keyLease > 0 ==> n in r.hosts && r.hosts[n].key == u.key && r.hosts[n].keyExpires == SatAdd(now, g.keyLease * 1000))
            && (n != u.host ==> (n in r.hosts <==> n in b.hosts) && (n in r.hosts ==> r.hosts[n] == b.hosts[n]))
    ensures var r := Applied(b, u, g, now);
            if g.keyLease > 0 && exists i :: 0 <= i < |u.services| && u.services[i].name == n then
              n in r.services && r.services[n].key == u.key && r.services[n].keyExpires == SatAdd(now, g.keyLease * 1000)
            else
              && (n in r.services ==> n in b.services && r.services[n].key == b.services[n].key && r.services[n].keyExpires == b.services[n].keyExpires)
              && (n in b.services && n !in r.services ==> g.keyLease == 0 && Under(b.services[n], u))
  {
    if g.keyLease > 0 {
      var services := map m | m in b.services ::
        if g.lease == 0 && Under(b.services[m], u) then b.services[m].(expires := 0) else b.services[m];
      AddedAt(services, u.services, u, g, now, n);
    }
  }

  // ---------------------------------------------------------------- every lease, in plain numbers

  /** `seconds` after `now`, on a clock that stops at its last value. */
  function After(now: nat, seconds: nat): nat
  {
    if now + 1000 * seconds <= U64_MAX then now + 1000 * seconds else U64_MAX
  }

  /** Item `i` is the last that names `n`. */
  predicate Final(items: seq<Item>, n: Name, i: nat)
  {
    i < |items| && items[i].name == n && forall j :: i < j < |items| ==> items[j].name != n
  }

  predicate Mentions(items: seq<Item>, n: Name) { exists i :: 0 <= i < |items| && items[i].name == n }

  lemma {:induction false} AddedExactly(services: map<Name, Service>, items: seq<Item>, u: Update, g: Grant, now: nat, n: Name, i: nat)
    requires Final(items, n, i)
    ensures var r := Added(services, items, u, g, now);
            n in r && r[n] == Service(u.host, u.key, if g.lease > 0 && !items[i].deleted then After(now, g.lease) else 0, After(now, g.keyLease))
    decreases |items|
  {
    var rest := items[..|items| - 1];
    if i < |rest| {
      assert items[|items| - 1].name != n;
      assert Final(rest, n, i);
      AddedExactly(services, rest, u, g, now, n, i);
    }
  }

  /** Expiry: an entry stays for its key lease; a host's records for their lease; a service's
      records for theirs, and only with a host of the same key whose records last. */
  lemma ExpiredExactly(b: Book, now: nat, n: Name)
    ensures var r := Expired(b, now);
            && (n in r.hosts <==> n in b.hosts && b.hosts[n].keyExpires > now)
            && (n in r.hosts ==> r.hosts[n] == Host(b.hosts[n].key, if b.hosts[n].expires > now then b.hosts[n].expires else 0, b.hosts[n].keyExpires))
            && (n in r.services <==> n in b.services && b.services[n].keyExpires > now)
            && (n in r.services ==>
                  var s := b.services[n];
                  var shown := s.expires > now && s.host in b.hosts && b.hosts[s.host].keyExpires > now
                               && b.hosts[s.host].expires > now && b.hosts[s.host].key == s.key;
                  r.services[n] == Service(s.host, s.key, if shown then s.expires else 0, s.keyExpires))
  {
  }

  /** An accepted update with a key lease: the host and every service named in it get the granted
      times, a deleted service or one without a record lease none; without a record lease the other
      services of that host and key lose theirs; nothing else changes. */
  lemma GrantedExactly(b: Book, u: Update, g: Grant, now: nat, n: Name, i: nat)
    requires g.keyLease > 0
    ensures var r := Applied(b, u, g, now);
            && u.host in r.hosts && r.hosts[u.host] == Host(u.key, if g.lease > 0 then After(now, g.lease) else 0, After(now, g.keyLease))
            && (n != u.host ==> (n in r.hosts <==> n in b.hosts) && (n in r.hosts ==> r.hosts[n] == b.hosts[n]))
            && (Final(u.services, n, i) ==>
                  n in r.services
                  && r.services[n] == Service(u.host, u.key, if g.lease > 0 && !u.services[i].deleted then After(now, g.lease) else 0,
                                              After(now, g.keyLease)))
            && (!Mentions(u.services, n) ==>
                  && (n in r.services <==> n in b.services)
                  && (n in r.services ==>
                        r.services[n] == if g.lease == 0 && b.services[n].host == u.host && b.services[n].key == u.key
                                         then b.services[n].(expires := 0) else b.services[n]))
  {
    var services := map m | m in b.services ::
      if g.lease == 0 && Under(b.services[m], u) then b.services[m].(expires := 0) else b.services[m];
    if Final(u.services, n, i) { AddedExactly(services, u.services, u, g, now, n, i); }
    AddedAt(services, u.services, u, g, now, n);
  }

  /** And one without a key lease: the host goes, with the services of that host and key. */
  lemma ReleasedExactly(b: Book, u: Update, g: Grant, now: nat, n: Name)
    requires g.keyLease == 0
    ensures var r := Applied(b, u, g, now);
            && (n in r.hosts <==> n in b.hosts && n != u.host) && (n in r.hosts ==> r.hosts[n] == b.hosts[n])
            && (n in r.services <==> n in b.services && !(b.services[n].host == u.host && b.services[n].key == u.key))
            && (n in r.services ==> r.services[n] == b.services[n])
  {
  }

  /** The records of a service are shown until `deadline` at least. */
  ghost predicate Shown(b: Book, n: Name, k: PublicKey, deadline: nat)
  {
    && n in b.services && b.services[n].key == k && b.services[n].expires >= deadline && b.services[n].keyExpires >= deadline
    && var h := b.services[n].host;
       h in b.hosts && b.hosts[h].key == k && b.hosts[h].expires >= deadline && b.hosts[h].keyExpires >= deadline
  }

  lemma StepShows(b: Book, e: Event, n: Name, k: PublicKey, deadline: nat)
    requires Sole(b, e.now) && Allowed(b, e) && Shown(b, n, k, deadline) && e.now < deadline
    requires e.Accept? ==> e.u.key != k
    ensures Shown(Step(b, e), n, k, deadline)
  {
    hide Applied, Expired, Names;
    var h := b.services[n].host;
    ExpiredExactly(b, e.now, n);
    ExpiredExactly(b, e.now, h);
    if e.Accept? {
      NamedBy(e.u, n);
      NamedBy(e.u, h);
      if e.g.keyLease == 0 {
        ReleasedExactly(Expired(b, e.now), e.u, e.g, e.now, n);
        ReleasedExactly(Expired(b, e.now), e.u, e.g, e.now, h);
      } else {
        GrantedExactly(Expired(b, e.now), e.u, e.g, e.now, n, 0);
        GrantedExactly(Expired(b, e.now), e.u, e.g, e.now, h, 0);
      }
    }
  }

  /** Over every run a registered service's records stay for their whole lease, unless its own key
      changes them. */
  lemma {:induction false} RecordsHold(books: seq<Book>, events: seq<Event>, n: Name, k: PublicKey, start: nat, now: nat, deadline: nat)
    requires Run(books, events, start) && Sole(books[0], start) && Shown(books[0], n, k, deadline)
    requires start <= now < deadline && forall i :: 0 <= i < |events| ==> events[i].now <= now
    requires forall i :: 0 <= i < |events| && events[i].Accept? ==> events[i].u.key != k
    ensures Shown(books[|events|], n, k, deadline)
    ensures RecordsLive(books[|events|].hosts, books[|events|].services[n], now)
    decreases |events|
  {
    hide Owner, Step, Allowed, Sole;
    if |events| > 0 {
      LaterOwner(books[0], n, start, events[0].now);
      StepShows(books[0], events[0], n, k, deadline);
      StepKeepsSole(books[0], events[0]);
      RecordsHold(books[1..], events[1..], n, k, events[0].now, now, deadline);
    }
  }

  /** A service registered by an accepted update is shown for the granted time. */
  lemma AcceptShows(b: Book, u: Update, g: Grant, now: nat, n: Name, i: nat)
    requires Final(u.services, n, i) && !u.services[i].deleted && 0 < g.lease <= g.keyLease
    ensures Shown(Step(b, Accept(now, u, g)), n, u.key, After(now, g.lease))
  {
    hide Applied, Expired;
    GrantedExactly(Expired(b, now), u, g, now, n, i);
  }

  // ---------------------------------------------------------------- what every step keeps

  lemma StepKeepsSole(b: Book, e: Event)
    requires Sole(b, e.now) && Allowed(b, e)
    ensures Sole(Step(b, e), e.now)
  {
    hide Applied, Expired, Names;
    var r := Step(b, e);
    forall n | HostLive(r, n, e.now) && ServiceLive(r, n, e.now)
      ensures r.hosts[n].key == r.services[n].key
    {
      ExpiredOwner(b, n, e.now);
      if e.Accept? {
        AppliedAt(Expired(b, e.now), e.u, e.g, e.now, n);
        NamedBy(e.u, n);
      }
    }
  }

  lemma NamedBy(u: Update, n: Name)
    ensures Names(u, n) <==> n == u.host || exists i :: 0 <= i < |u.services| && u.services[i].name == n
  {
  }

  ghost predicate Releases(e: Event, k: PublicKey) { e.Accept? && e.u.key == k && e.g.keyLease == 0 }

  /** One step: a live owner stays, or gives the name up itself. */
  lemma StepOwner(b: Book, e: Event, n: Name, k: PublicKey)
    requires Sole(b, e.now) && Allowed(b, e) && e.now < U64_MAX && Owner(b, n, e.now) == Some(k)
    ensures Owner(Step(b, e), n, e.now) == Some(k) || (Owner(Step(b, e), n, e.now) == None && Releases(e, k))
  {
    hide Applied, Expired, Names;
    ExpiredOwner(b, n, e.now);
    if e.Accept? {
      AppliedAt(Expired(b, e.now), e.u, e.g, e.now, n);
      NamedBy(e.u, n);
    }
  }

  lemma StepGivesUp(b: Book, e: Event, n: Name, k: PublicKey)
    requires Sole(b, e.now) && Allowed(b, e) && e.now < U64_MAX && Owner(b, n, e.now) == Some(k)
    requires Owner(Step(b, e), n, e.now) != Some(k)
    ensures GivesUp(b, e, n, k)
  {
    hide Applied, Expired, Names;
    StepOwner(b, e, n, k);
    ExpiredOwner(b, n, e.now);
    AppliedAt(Expired(b, e.now), e.u, e.g, e.now, n);
  }

  lemma LaterOwner(b: Book, n: Name, now: nat, later: nat)
    requires Sole(b, now) && now <= later
    ensures Sole(b, later) && Owner(b, n, later) in {None, Owner(b, n, now)}
  {
  }

  /** A run of permitted steps in time order. */
  ghost predicate Run(books: seq<Book>, events: seq<Event>, start: nat)
  {
    && |books| == |events| + 1
    && (forall i :: 0 <= i < |events| ==> Allowed(books[i], events[i]) && books[i + 1] == Step(books[i], events[i]))
    && (forall i :: 0 <= i < |events| ==> start <= events[i].now < U64_MAX)
    && (forall i, j :: 0 <= i < j < |events| ==> events[i].now <= events[j].now)
  }

  /** The step by which the owner gives up this very name. */
  ghost predicate GivesUp(b: Book, e: Event, n: Name, k: PublicKey)
  {
    && Releases(e, k) && Owner(b, n, e.now) == Some(k) && Owner(Step(b, e), n, e.now) == None
    && (n == e.u.host || (n in b.services && b.services[n].host == e.u.host))
  }

  /** Between two owners of a name, its key lease ended or the first owner gave that name up. */
  lemma {:induction false} OwnershipPasses(books: seq<Book>, events: seq<Event>, n: Name, start: nat, end: nat,
                                           first: PublicKey, last: PublicKey)
    requires Run(books, events, start) && Sole(books[0], start) && start <= end
    requires forall i :: 0 <= i < |events| ==> events[i].now <= end
    requires Owner(books[0], n, start) == Some(first)
    requires Owner(books[|events|], n, end) == Some(last) && last != first
    ensures exists m :: 0 <= m < |events|
                        && (Owner(books[m], n, events[m].now) == None || GivesUp(books[m], events[m], n, first))
    decreases |events|
  {
    hide Owner, Step, Allowed, Releases, Sole, GivesUp;
    if |events| == 0 {
      LaterOwner(books[0], n, start, end);
    } else {
      var e := events[0];
      LaterOwner(books[0], n, start, e.now);
      if Owner(books[0], n, e.now) == Some(first) {
        StepOwner(books[0], e, n, first);
        StepKeepsSole(books[0], e);
        if Owner(books[1], n, e.now) != Some(first) {
          StepGivesUp(books[0], e, n, first);
          assert GivesUp(books[0], events[0], n, first);
        } else {
          OwnershipPasses(books[1..], events[1..], n, e.now, end, first, last);
          var m :| 0 <= m < |events[1..]|
                   && (Owner(books[1..][m], n, events[1..][m].now) == None || GivesUp(books[1..][m], events[1..][m], n, first));
          assert events[1..][m] == events[m + 1] && books[1..][m] == books[m + 1];
        }
      }
    }
  }

  /** The name is held by the key until `deadline` at least. */
  ghost predicate Holds(b: Book, n: Name, k: PublicKey, deadline: nat)
  {
    || (n in b.hosts && b.hosts[n].key == k && b.hosts[n].keyExpires >= deadline)
    || (n in b.services && b.services[n].key == k && b.services[n].keyExpires >= deadline)
  }

  lemma HoldsOwns(b: Book, n: Name, k: PublicKey, deadline: nat, now: nat)
    requires Holds(b, n, k, deadline) && Sole(b, now) && now < deadline
    ensures Owner(b, n, now) == Some(k)
  {
  }

  lemma StepHolds(b: Book, e: Event, n: Name, k: PublicKey, deadline: nat)
    requires Sole(b, e.now) && Allowed(b, e) && Holds(b, n, k, deadline) && e.now < deadline
    requires e.Accept? ==> e.u.key != k
    ensures Holds(Step(b, e), n, k, deadline)
  {
    hide Applied, Expired, Names;
    HoldsOwns(b, n, k, deadline, e.now);
    ExpiredOwner(b, n, e.now);
    if e.Accept? {
      AppliedAt(Expired(b, e.now), e.u, e.g, e.now, n);
      NamedBy(e.u, n);
    }
  }

  /** A granted key lease is good for its whole time against every other key: after any run of
      other updates and expiries the name still belongs to the key. */
  lemma {:induction false} GrantHolds(books: seq<Book>, events: seq<Event>, n: Name, k: PublicKey, start: nat, now: nat, deadline: nat)
    requires Run(books, events, start) && Sole(books[0], start) && Holds(books[0], n, k, deadline)
    requires start <= now < deadline && forall i :: 0 <= i < |events| ==> events[i].now <= now
    requires forall i :: 0 <= i < |events| && events[i].Accept? ==> events[i].u.key != k
    ensures Owner(books[|events|], n, now) == Some(k)
    decreases |events|
  {
    hide Owner, Step, Allowed, Sole, Holds;
    if |events| == 0 {
      LaterOwner(books[0], n, start, now);
      HoldsOwns(books[0], n, k, deadline, now);
    } else {
      LaterOwner(books[0], n, start, events[0].now);
      StepHolds(books[0], events[0], n, k, deadline);
      StepKeepsSole(books[0], events[0]);
      GrantHolds(books[1..], events[1..], n, k, events[0].now, now, deadline);
    }
  }

  /** An accepted update holds every name in it for the granted time. */
  lemma AcceptHolds(b: Book, u: Update, g: Grant, now: nat, n: Name)
    requires Names(u, n) && g.keyLease > 0
    ensures Holds(Step(b, Accept(now, u, g)), n, u.key, SatAdd(now, g.keyLease * 1000))
  {
    hide Applied, Expired;
    AppliedAt(Expired(b, now), u, g, now, n);
  }

  // ---------------------------------------------------------------- bounds

  function Parents(b: Book): set<Name> { b.hosts.Keys + set n | n in b.services :: b.services[n].host }

  function Children(b: Book, h: Name): set<Name> { set n | n in b.services && b.services[n].host == h }

  ghost predicate BookBounded(b: Book)
  {
    |Parents(b)| <= HOSTS && |b.services| <= SERVICES && forall h :: |Children(b, h)| <= PER_HOST
  }

  ghost predicate Bounded(b: Book, replies: map<Digest, Receipt>) { BookBounded(b) && |replies| <= REPLIES }

  function LiveReceipts(replies: map<Digest, Receipt>, now: nat): map<Digest, Receipt>
  {
    map d | d in replies && replies[d].expires > now :: replies[d]
  }

  lemma ExpireKeepsBounded(b: Book, replies: map<Digest, Receipt>, now: nat)
    requires Bounded(b, replies)
    ensures Bounded(Expired(b, now), LiveReceipts(replies, now))
  {
    hide Expired, Parents, Children;
    var r := Expired(b, now);
    ExpiredParts(b, now);
    SubsetSize(Parents(r), Parents(b));
    SubsetSize(r.services.Keys, b.services.Keys);
    assert |r.services| == |r.services.Keys| && |b.services| == |b.services.Keys|;
    FewReceipts(replies, now);
    forall h
      ensures |Children(r, h)| <= PER_HOST
    {
      SubsetSize(Children(r, h), Children(b, h));
    }
  }

  lemma ExpiredParts(b: Book, now: nat)
    ensures var r := Expired(b, now);
            Parents(r) <= Parents(b) && r.services.Keys <= b.services.Keys && forall h :: Children(r, h) <= Children(b, h)
  {
    hide RecordsLive;
    var r := Expired(b, now);
    forall p | p in Parents(r)
      ensures p in Parents(b)
    {
      if p !in r.hosts {
        var n :| n in r.services && r.services[n].host == p;
        assert n in b.services && b.services[n].host == p;
      }
    }
  }

  /** The per-host count of `check_bounds`. */
  method FewPerHost(b: Book) returns (ok: bool)
    ensures ok <==> forall h :: |Children(b, h)| <= PER_HOST
  {
    hide Children;
    var counts: map<Name, nat> := map[];
    var left := b.services.Keys;
    CountStarts(b);
    while left != {}
      invariant left <= b.services.Keys
      invariant forall h :: Count(counts, h) == |Children(b, h) - left| <= PER_HOST
      decreases |left|
    {
      var n :| n in left;
      var h := b.services[n].host;
      CountStep(b, left, n);
      counts := counts[h := Count(counts, h) + 1];
      if counts[h] > PER_HOST {
        SubsetSize(Children(b, h) - (left - {n}), Children(b, h));
        return false;
      }
      left := left - {n};
    }
    CountEnds(b);
    return true;
  }

  function Count(counts: map<Name, nat>, h: Name): nat { if h in counts then counts[h] else 0 }

  lemma CountStarts(b: Book)
    ensures forall h :: Children(b, h) - b.services.Keys == {}
  {
  }

  lemma CountEnds(b: Book)
    ensures forall h :: Children(b, h) - {} == Children(b, h)
  {
  }

  lemma CountStep(b: Book, left: set<Name>, n: Name)
    requires n in left && left <= b.services.Keys
    ensures forall h :: |Children(b, h) - (left - {n})| == |Children(b, h) - left| + if h == b.services[n].host then 1 else 0
  {
    forall h
      ensures |Children(b, h) - (left - {n})| == |Children(b, h) - left| + if h == b.services[n].host then 1 else 0
    {
      if h == b.services[n].host {
        assert Children(b, h) - (left - {n}) == Children(b, h) - left + {n};
      } else {
        assert Children(b, h) - (left - {n}) == Children(b, h) - left;
      }
    }
  }

  // ---------------------------------------------------------------- the registry

  /** A repeated update gets its grant again, less the time since. */
  function Cached(replies: map<Digest, Receipt>, d: Digest, now: nat): Option<Grant>
  {
    if d in replies && replies[d].expires > now then
      var r := replies[d];
      var elapsed := Min(if now > r.receivedAt then (now - r.receivedAt) / 1000 else 0, 0xffff_ffff);
      Some(Grant(if r.grant.lease > elapsed then r.grant.lease - elapsed else 0,
                 if r.grant.keyLease > elapsed then r.grant.keyLease - elapsed else 0))
    else None
  }

  function Granted(u: Update, policy: Policy): (g: Grant)
    ensures g.lease <= u.lease && g.lease <= policy.maxLease && g.lease in {u.lease, policy.maxLease}
    ensures var most := if u.extended then policy.maxKeyLease else policy.maxLease;
            g.keyLease <= u.keyLease && g.keyLease <= most && g.keyLease in {u.keyLease, most}
  {
    Grant(Min(u.lease, policy.maxLease), Min(u.keyLease, if u.extended then policy.maxKeyLease else policy.maxLease))
  }

  /** A repeated update within 30 s gets the grant of the first, less the whole seconds since, and
      later ones are new updates. */
  lemma ReplayInNumbers(replies: map<Digest, Receipt>, d: Digest, g: Grant, t: nat, now: nat, seconds: nat)
    requires d in replies && replies[d] == Receipt(g, t, SatAdd(t, 30000)) && t + 30000 <= U64_MAX
    requires t + 1000 * seconds <= now < t + 1000 * (seconds + 1)
    ensures Cached(replies, d, now).Some? <==> seconds < 30
    ensures seconds < 30 ==>
              Cached(replies, d, now).value == Grant(if g.lease >= seconds then g.lease - seconds else 0,
                                                     if g.keyLease >= seconds then g.keyLease - seconds else 0)
  {
    assert (now - t) / 1000 == seconds;
  }

  /** The oldest receipt makes room. */
  method Oldest(replies: map<Digest, Receipt>) returns (d: Digest)
    requires replies != map[]
    ensures d in replies && forall e :: e in replies ==> replies[d].receivedAt <= replies[e].receivedAt
  {
    d :| d in replies;
    var left := replies.Keys - {d};
    while left != {}
      invariant d in replies && left <= replies.Keys
      invariant forall e :: e in replies && e !in left ==> replies[d].receivedAt <= replies[e].receivedAt
      decreases |left|
    {
      var e :| e in left;
      if replies[e].receivedAt < replies[d].receivedAt { d := e; }
      left := left - {e};
    }
  }

  datatype Image = Image(book: Book, replies: map<Digest, Receipt>)

  class Registry {
    var book: Book
    var replies: map<Digest, Receipt>
    const policy: Policy
    /** What the store holds. */
    var saved: Option<Image>
    ghost var clock: nat

    ghost predicate Valid()
      reads this
    {
      Sole(book, clock) && Bounded(book, replies)
    }

    constructor (policy: Policy)
      ensures Valid() && book == Book(map[], map[]) && replies == map[] && this.policy == policy && clock == 0
    {
      book, replies, saved, clock := Book(map[], map[]), map[], None, 0;
      this.policy := policy;
      new;
      assert Parents(book) == {};
      assert forall h :: Children(book, h) == {};
    }

    method ExpireAll(now: nat)
      requires Valid() && clock <= now
      modifies this`book, this`replies, this`clock
      ensures Valid() && clock == now && book == Step(old(book), Expire(now)) && replies == LiveReceipts(old(replies), now)
    {
      hide Bounded, Sole, Expired;
      LaterOwner(book, 0, clock, now);
      StepKeepsSole(book, Expire(now));
      ExpireKeepsBounded(book, replies, now);
      book, replies, clock := Expired(book, now), LiveReceipts(replies, now), now;
    }

    /** Does another key own one of the names? */
    method Foreign(u: Update, now: nat) returns (yes: bool)
      ensures yes <==> !Permitted(book, u, now)
    {
      hide Owner;
      NamedBy(u, u.host);
      var k := Owner(book, u.host, now);
      if k.Some? && k.value != u.key { return true; }
      for i := 0 to |u.services|
        invariant Owner(book, u.host, now) in {None, Some(u.key)}
        invariant forall j :: 0 <= j < i ==> Owner(book, u.services[j].name, now) in {None, Some(u.key)}
      {
        NamedBy(u, u.services[i].name);
        k := Owner(book, u.services[i].name, now);
        if k.Some? && k.value != u.key { return true; }
      }
      return false;
    }

    /** An update takes effect as a whole and only after it is saved, or not at all. `room`,
        `accepts` and `saves` stand for the octet limit, the caller's test and the store. */
    method Apply(u: Update, now: nat, room: bool, accepts: bool, saves: bool) returns (r: Result<Grant, Error>)
      requires Valid() && clock <= now < U64_MAX
      modifies this
      ensures Valid() && clock == now
      ensures r.Err? ==> book == old(book) && replies == old(replies) && saved == old(saved)
      ensures Cached(old(replies), u.digest, now).Some? ==>
                r == Ok(Cached(old(replies), u.digest, now).value) && book == old(book) && replies == old(replies) && saved == old(saved)
      ensures Cached(old(replies), u.digest, now).None? ==> var g := Granted(u, policy);
                && (r == Err(YxDomain) <==> !Permitted(old(book), u, now))
                && (r == Err(Refused) <==> Permitted(old(book), u, now) && g.keyLease < g.lease)
                && (r.Ok? ==> && r.value == g && book == Step(old(book), Accept(now, u, g)) && saved == Some(Image(book, replies))
                              && accepts && saves && Cached(replies, u.digest, now) == Some(g))
                && (Permitted(old(book), u, now) && g.keyLease >= g.lease && BookBounded(Step(old(book), Accept(now, u, g))) ==>
                      (r.Ok? <==> room && accepts && saves))
    {
      hide BookBounded, Sole, Expired, Permitted, Applied, Cached;
      LaterOwner(book, 0, clock, now);
      clock := now;
      var again := Cached(replies, u.digest, now);
      if again.Some? { return Ok(again.value); }
      var foreign := Foreign(u, now);
      if foreign { return Err(YxDomain); }
      var g := Granted(u, policy);
      if g.keyLease < g.lease { return Err(Refused); }
      if !room { return Err(ServFail); }
      var next := Applied(Expired(book, now), u, g, now);
      StepKeepsSole(book, Accept(now, u, g));
      var receipts := Remember(replies, u.digest, g, now);
      var ok := CheckBounds(next, receipts);
      if !ok || !accepts || !saves { return Err(ServFail); }
      saved := Some(Image(next, receipts));
      book, replies := next, receipts;
      return Ok(g);
    }
  }

  lemma FewReceipts(replies: map<Digest, Receipt>, now: nat)
    ensures |LiveReceipts(replies, now)| <= |replies|
  {
    var kept := LiveReceipts(replies, now);
    SubsetSize(kept.Keys, replies.Keys);
    assert |kept| == |kept.Keys| && |replies| == |replies.Keys|;
  }

  lemma OneIn(m: map<Digest, Receipt>, d: Digest, r: Receipt)
    ensures |m[d := r]| <= |m| + 1
    ensures d in m ==> |m - {d}| == |m| - 1
  {
    assert m[d := r].Keys == m.Keys + {d} && (m - {d}).Keys == m.Keys - {d};
    assert |m| == |m.Keys| && |m[d := r]| == |m[d := r].Keys| && |m - {d}| == |(m - {d}).Keys|;
  }

  /** The receipts with a new one; at the limit the oldest goes. */
  method Remember(replies: map<Digest, Receipt>, d: Digest, g: Grant, now: nat) returns (receipts: map<Digest, Receipt>)
    requires now < U64_MAX
    ensures |replies| <= REPLIES ==> |receipts| <= REPLIES
    ensures Cached(receipts, d, now) == Some(g)
    ensures forall e :: e in receipts && e != d ==> e in replies && replies[e].expires > now && receipts[e] == replies[e]
  {
    hide LiveReceipts, Cached;
    receipts := LiveReceipts(replies, now);
    ReceiptFacts(replies, now);
    if |receipts| == REPLIES {
      var oldest := Oldest(receipts);
      OneIn(receipts, oldest, receipts[oldest]);
      receipts := receipts - {oldest};
    }
    OneIn(receipts, d, Receipt(g, now, SatAdd(now, 30000)));
    receipts := receipts[d := Receipt(g, now, SatAdd(now, 30000))];
    JustCached(receipts, d, g, now);
  }

  lemma ReceiptFacts(replies: map<Digest, Receipt>, now: nat)
    ensures |LiveReceipts(replies, now)| <= |replies|
    ensures forall d :: d in LiveReceipts(replies, now) ==>
              d in replies && replies[d].expires > now && LiveReceipts(replies, now)[d] == replies[d]
  {
    FewReceipts(replies, now);
  }

  lemma JustCached(receipts: map<Digest, Receipt>, d: Digest, g: Grant, now: nat)
    requires now < U64_MAX && d in receipts && receipts[d] == Receipt(g, now, SatAdd(now, 30000))
    ensures Cached(receipts, d, now) == Some(g)
  {
  }

  method CheckBounds(b: Book, replies: map<Digest, Receipt>) returns (ok: bool)
    ensures ok <==> Bounded(b, replies)
  {
    if |Parents(b)| > HOSTS || |b.services| > SERVICES || |replies| > REPLIES { return false; }
    ok := FewPerHost(b);
  }
}
