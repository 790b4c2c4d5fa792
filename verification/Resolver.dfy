/** Forwarding transactions of src/dns/resolver.rs and its submodules: nobody who waits is lost
    or answered twice, and nobody waits for ever. */
module Resolver {
  import opened Bytes
  import opened Results
  import opened Waiters
  import opened Aliases

  const PENDING := 128
  const WAITERS := 256
  const PORTS := 16384
  const FIRST_PORT := 49152
  const TIMEOUT := 10_000

  /** A query at an upstream server. Internal probes have no key and no waiters. */
  datatype Pending = Pending(key: Option<nat>, question: Question, waiters: seq<Waiter>, server: nat, port: nat, tcp: bool,
                             deadline: nat, retry: nat, attempt: nat, base: bool, aliases: set<Name>)

  /** A query at the discovery proxy. */
  datatype Job = Job(key: Option<nat>, question: Question, waiters: seq<Waiter>, job: nat, base: bool, aliases: set<Name>)

  /** Where an Additional-A question goes. */
  datatype Route = Locally | NoRoom | Proxy(started: bool, job: nat) | Upstream

  function FromPending(p: Pending): Job { Job(p.key, p.question, p.waiters, 0, p.base, p.aliases) }

  function Lines(pending: map<nat, Pending>): map<nat, seq<Waiter>> { map id | id in pending :: pending[id].waiters }

  function JobLines(jobs: map<nat, Job>): map<nat, seq<Waiter>> { map id | id in jobs :: jobs[id].waiters }

  ghost function Everyone(pending: map<nat, Pending>, jobs: map<nat, Job>): multiset<Waiter>
  {
    Held(Lines(pending)) + Held(JobLines(jobs))
  }

  predicate AliasesOk(base: bool, aliases: set<Name>) { if base then 1 <= |aliases| <= ALIASES else aliases == {} }

  /** The past of a client's query: since when it is with the present server, how long it was with
      upstream servers before, and how many Additional-A lookups were made for it. */
  datatype Past = Past(since: nat, waited: nat, lookups: nat)

  /** Upstream time up to `now`. */
  function Spent(past: Past, now: nat): nat { past.waited + if now > past.since then now - past.since else 0 }

  /** There is one more alias for each lookup, and all time with upstream servers, until the deadline,
      is at most ten seconds for each alias and for the query itself. */
  predicate Timely(p: Pending, past: Past)
  {
    && AliasesOk(p.base, p.aliases)
    && (if p.key.Some? then && past.waited + p.deadline <= past.since + TIMEOUT * (|p.aliases| + 1)
                            && past.waited <= TIMEOUT * |p.aliases| && past.lookups <= |p.aliases|
        else p.waiters == [] && !p.base && p.question.kind != AAAA)
  }

  predicate JobOk(j: Job, past: Past)
  {
    AliasesOk(j.base, j.aliases) && j.key.Some? && past.waited <= TIMEOUT * |j.aliases| && past.lookups <= |j.aliases|
  }

  predicate PortsDiffer(pending: map<nat, Pending>)
  {
    forall i, j :: i in pending && j in pending && i != j ==> pending[i].port != pending[j].port
  }

  ghost predicate Tidy(pending: map<nat, Pending>, jobs: map<nat, Job>, past: map<nat, Past>, next: nat)
  {
    && PortsDiffer(pending)
    && (forall id :: id in pending ==> id <= next && id in past && Timely(pending[id], past[id]))
    && (forall id :: id in jobs ==> id <= next && id in past && JobOk(jobs[id], past[id]))
    && pending.Keys !! jobs.Keys && |pending| + |jobs| <= PENDING
  }

  /** The query `p` ends at a tick: it is late, or its server is gone and it cannot be asked again. */
  predicate Ends(p: Pending, privacy: bool, upstreams: seq<nat>, now: nat)
  {
    now >= p.deadline || (privacy && p.server !in upstreams && (upstreams == [] || p.key.None?))
  }

  /** How a query goes on at a tick, as `q` under the number `n`. One whose server is gone goes to
      the first server, an overdue one to the next, with twice, four and then eight times the first
      second to wait; any other is left alone. */
  predicate GoesOn(p: Pending, q: Pending, id: nat, n: nat, last: nat, privacy: bool, upstreams: seq<nat>, now: nat)
  {
    && q.key == p.key && q.question == p.question && q.waiters == p.waiters
    && q.deadline == p.deadline && q.base == p.base && q.aliases == p.aliases
    && (if privacy && p.server !in upstreams then
          n > last && !q.tcp && q.attempt == p.attempt && upstreams != [] && q.server == upstreams[0]
          && q.retry == Min(SatAdd(now, 1000), p.deadline)
        else if now >= p.retry && !p.tcp then
          n > last && !q.tcp && q.attempt == p.attempt + 1
          && q.server == (if upstreams == [] then p.server else upstreams[(p.attempt + 1) % |upstreams|])
          && q.retry == Min(SatAdd(now, if p.attempt == 0 then 2000 else if p.attempt == 1 then 4000 else 8000), p.deadline)
        else n == id && q == p)
  }

  /** A tick: every query that does not end goes on under its number in `went`, and there is no other. */
  ghost predicate Ticked(before: map<nat, Pending>, after: map<nat, Pending>, went: map<nat, nat>, last: nat,
                         privacy: bool, upstreams: seq<nat>, now: nat)
  {
    && (forall id :: id in went <==> id in before && !Ends(before[id], privacy, upstreams, now))
    && (forall i, j :: i in went && j in went && i != j ==> went[i] != went[j])
    && (forall id :: id in went ==>
          went[id] in after && GoesOn(before[id], after[went[id]], id, went[id], last, privacy, upstreams, now))
    && (forall n :: n in after ==> exists id :: id in went && went[id] == n)
  }

  /** The queries that end. */
  ghost function Ended(before: map<nat, Pending>, privacy: bool, upstreams: seq<nat>, now: nat): map<nat, Pending>
  {
    map id | id in before && Ends(before[id], privacy, upstreams, now) :: before[id]
  }

  /** A query as it is first asked. */
  predicate Asked(p: Pending, key: Option<nat>, question: Question, waiters: seq<Waiter>, server: nat, now: nat, base: bool, aliases: set<Name>)
  {
    && p.key == key && p.question == question && p.waiters == waiters && p.server == server && !p.tcp && p.attempt == 0
    && p.deadline == SatAdd(now, 10_000) && p.retry == SatAdd(now, 1000) && p.base == base && p.aliases == aliases
  }

  /** What one more question does for the waiters of `j`: at a proxy it becomes a job, upstream a
      query; without either they are answered. */
  predicate Continued(j: Job, question: Question, aliases: set<Name>, now: nat, route: Route, upstreams: seq<nat>,
                      pending: map<nat, Pending>, jobs: map<nat, Job>, next: nat,
                      after: map<nat, Pending>, left: map<nat, Job>, replies: seq<Waiter>, query: Option<nat>)
  {
    var chain := if aliases == {} then {question.name} else aliases;
    if route.Proxy? && route.started then
      replies == [] && query == None && after == pending
      && left == jobs[next + 1 := Job(j.key, question, j.waiters, route.job, true, chain)]
    else if route.Upstream? && upstreams != [] then
      && replies == [] && query == Some(next + 1) && left == jobs && next + 1 in after
      && after == pending[next + 1 := after[next + 1]]
      && Asked(after[next + 1], j.key, question, j.waiters, upstreams[0], now, true, chain)
    else
      replies == j.waiters && query == None && after == pending && left == jobs
  }

  /** What a response does for the waiters of `j`, which is out of the tables already. */
  ghost predicate Answers(j: Job, m: Answer, enabled: bool, now: nat, route: Route, upstreams: seq<nat>,
                          pending: map<nat, Pending>, jobs: map<nat, Job>, next: nat,
                          after: map<nat, Pending>, left: map<nat, Job>, replies: seq<Waiter>, query: Option<nat>)
  {
    if j.base then
      && (forall n: nat :: Leaves(m, j.question, j.aliases, n) ==>
            Follow(m, j.question.name, n).Some?
            && Continued(j, Question(Follow(m, j.question.name, n).value, A), j.aliases + Visited(m, j.question.name, n), now, route,
                         upstreams, pending, jobs, next, after, left, replies, query))
      && ((forall n: nat :: !Leaves(m, j.question, j.aliases, n)) ==>
            replies == j.waiters && query == None && after == pending && left == jobs)
    else
      match AdditionalQuestion(m, j.question, enabled)
      case Some(extra) => Continued(j, extra, j.aliases, now, route, upstreams, pending, jobs, next, after, left, replies, query)
      case None => replies == j.waiters && query == None && after == pending && left == jobs
  }

  // ---------------------------------------------------------------- entries in and out

  lemma Sizes<V>(m: map<nat, V>, id: nat, v: V)
    ensures |m[id := v]| == if id in m then |m| else |m| + 1
    ensures id in m ==> |m - {id}| == |m| - 1
  {
    assert m[id := v].Keys == m.Keys + {id} && (m - {id}).Keys == m.Keys - {id};
    assert |m| == |m.Keys| && |m[id := v]| == |m[id := v].Keys| && |m - {id}| == |(m - {id}).Keys|;
  }

  lemma LinesPut(pending: map<nat, Pending>, id: nat, p: Pending)
    ensures Lines(pending[id := p]) == Lines(pending)[id := p.waiters] && Lines(pending - {id}) == Lines(pending) - {id}
    ensures id in Lines(pending) <==> id in pending
    ensures id in pending ==> Lines(pending)[id] == pending[id].waiters
  {
  }

  lemma JobLinesPut(jobs: map<nat, Job>, id: nat, j: Job)
    ensures JobLines(jobs[id := j]) == JobLines(jobs)[id := j.waiters] && JobLines(jobs - {id}) == JobLines(jobs) - {id}
    ensures id in JobLines(jobs) <==> id in jobs
    ensures id in jobs ==> JobLines(jobs)[id] == jobs[id].waiters
  {
  }

  lemma Shuffle(x: multiset<Waiter>, y: multiset<Waiter>, z: multiset<Waiter>)
    ensures (x + y) + z == (y + z) + x && z + (x + y) == (z + y) + x
  {
  }

  lemma Swap(a: multiset<Waiter>, x: multiset<Waiter>, b: multiset<Waiter>, y: multiset<Waiter>, z: multiset<Waiter>)
    requires a + x == b + y
    ensures (a + z) + x == (b + z) + y && (z + a) + x == (z + b) + y
  {
    assert (a + z) + x == (a + x) + z && (b + z) + y == (b + y) + z;
    assert (z + a) + x == (a + x) + z && (z + b) + y == (b + y) + z;
  }

  lemma EveryoneChanges(pending: map<nat, Pending>, jobs: map<nat, Job>, id: nat, p: Pending)
    ensures id in pending ==> Everyone(pending, jobs) == Everyone(pending - {id}, jobs) + multiset(pending[id].waiters)
    ensures id !in pending ==> Everyone(pending[id := p], jobs) == Everyone(pending, jobs) + multiset(p.waiters)
    ensures id in pending ==>
              Everyone(pending[id := p], jobs) + multiset(pending[id].waiters) == Everyone(pending, jobs) + multiset(p.waiters)
  {
    hide Held, Lines, JobLines;
    LinesPut(pending, id, p);
    HeldWith(Lines(pending), id, p.waiters);
    if id in pending {
      HeldWithout(Lines(pending), id);
      Shuffle(multiset(pending[id].waiters), Held(Lines(pending - {id})), Held(JobLines(jobs)));
      Swap(Held(Lines(pending[id := p])), multiset(pending[id].waiters), Held(Lines(pending)), multiset(p.waiters), Held(JobLines(jobs)));
    }
  }

  lemma EveryoneJobs(pending: map<nat, Pending>, jobs: map<nat, Job>, id: nat, j: Job)
    ensures id in jobs ==> Everyone(pending, jobs) == Everyone(pending, jobs - {id}) + multiset(jobs[id].waiters)
    ensures id !in jobs ==> Everyone(pending, jobs[id := j]) == Everyone(pending, jobs) + multiset(j.waiters)
    ensures id in jobs ==>
              Everyone(pending, jobs[id := j]) + multiset(jobs[id].waiters) == Everyone(pending, jobs) + multiset(j.waiters)
  {
    hide Held, Lines, JobLines;
    JobLinesPut(jobs, id, j);
    HeldWith(JobLines(jobs), id, j.waiters);
    if id in jobs {
      HeldWithout(JobLines(jobs), id);
      Shuffle(multiset(jobs[id].waiters), Held(JobLines(jobs - {id})), Held(Lines(pending)));
      Swap(Held(JobLines(jobs[id := j])), multiset(jobs[id].waiters), Held(JobLines(jobs)), multiset(j.waiters), Held(Lines(pending)));
    }
  }

  lemma TakePending(pending: map<nat, Pending>, jobs: map<nat, Job>, past: map<nat, Past>, next: nat, id: nat)
    requires Tidy(pending, jobs, past, next) && id in pending
    ensures Tidy(pending - {id}, jobs, past, next) && |pending - {id}| + |jobs| < PENDING
    ensures Everyone(pending, jobs) == Everyone(pending - {id}, jobs) + multiset(pending[id].waiters)
    ensures id <= next && id !in jobs && id in past && Timely(pending[id], past[id])
    ensures forall j :: j in pending - {id} ==> pending[j].port != pending[id].port
  {
    hide Timely, JobOk, Everyone;
    Sizes(pending, id, pending[id]);
    EveryoneChanges(pending, jobs, id, pending[id]);
  }

  lemma PutPending(pending: map<nat, Pending>, jobs: map<nat, Job>, past: map<nat, Past>, next: nat, id: nat, p: Pending, b: Past)
    requires Tidy(pending, jobs, past, next) && id !in pending && id !in jobs && id <= next && |pending| + |jobs| < PENDING
    requires Timely(p, b) && forall j :: j in pending ==> pending[j].port != p.port
    ensures Tidy(pending[id := p], jobs, past[id := b], next)
    ensures Everyone(pending[id := p], jobs) == Everyone(pending, jobs) + multiset(p.waiters)
  {
    hide Timely, JobOk, Everyone;
    Sizes(pending, id, p);
    EveryoneChanges(pending, jobs, id, p);
  }

  /** A waiter joins a query that is already under way. */
  lemma JoinPending(pending: map<nat, Pending>, jobs: map<nat, Job>, past: map<nat, Past>, next: nat, id: nat, w: Waiter)
    requires Tidy(pending, jobs, past, next) && id in pending && pending[id].key.Some?
    ensures var p := pending[id].(waiters := pending[id].waiters + [w]);
            && Tidy(pending[id := p], jobs, past, next)
            && Everyone(pending[id := p], jobs) == Everyone(pending, jobs) + multiset{w}
  {
    hide JobOk, Everyone;
    var p := pending[id].(waiters := pending[id].waiters + [w]);
    Sizes(pending, id, p);
    EveryoneChanges(pending, jobs, id, p);
    JoinLine(pending[id].waiters, w, Everyone(pending[id := p], jobs), Everyone(pending, jobs));
  }

  lemma JoinLine(line: seq<Waiter>, w: Waiter, after: multiset<Waiter>, before: multiset<Waiter>)
    requires after + multiset(line) == before + multiset(line + [w])
    ensures after == before + multiset{w}
  {
    assert multiset(line + [w]) == multiset(line) + multiset{w};
    assert after == (after + multiset(line)) - multiset(line);
  }

  lemma TakeJob(pending: map<nat, Pending>, jobs: map<nat, Job>, past: map<nat, Past>, next: nat, id: nat)
    requires Tidy(pending, jobs, past, next) && id in jobs
    ensures Tidy(pending, jobs - {id}, past, next) && |pending| + |jobs - {id}| < PENDING
    ensures Everyone(pending, jobs) == Everyone(pending, jobs - {id}) + multiset(jobs[id].waiters)
    ensures id in past && JobOk(jobs[id], past[id])
  {
    hide Timely, JobOk, PortsDiffer, Everyone;
    Sizes(jobs, id, jobs[id]);
    EveryoneJobs(pending, jobs, id, jobs[id]);
  }

  lemma PutJob(pending: map<nat, Pending>, jobs: map<nat, Job>, past: map<nat, Past>, next: nat, id: nat, j: Job, b: Past)
    requires Tidy(pending, jobs, past, next) && id !in jobs && id !in pending && id <= next && |pending| + |jobs| < PENDING && JobOk(j, b)
    ensures Tidy(pending, jobs[id := j], past[id := b], next)
    ensures Everyone(pending, jobs[id := j]) == Everyone(pending, jobs) + multiset(j.waiters)
  {
    hide Timely, JobOk, PortsDiffer, Everyone;
    Sizes(jobs, id, j);
    EveryoneJobs(pending, jobs, id, j);
  }

  lemma JoinJob(pending: map<nat, Pending>, jobs: map<nat, Job>, past: map<nat, Past>, next: nat, id: nat, w: Waiter)
    requires Tidy(pending, jobs, past, next) && id in jobs
    ensures var j := jobs[id].(waiters := jobs[id].waiters + [w]);
            && Tidy(pending, jobs[id := j], past, next)
            && Everyone(pending, jobs[id := j]) == Everyone(pending, jobs) + multiset{w}
  {
    hide Timely, PortsDiffer, Everyone;
    var j := jobs[id].(waiters := jobs[id].waiters + [w]);
    Sizes(jobs, id, j);
    EveryoneJobs(pending, jobs, id, j);
    JoinLine(jobs[id].waiters, w, Everyone(pending, jobs[id := j]), Everyone(pending, jobs));
  }

  lemma NextGrows(pending: map<nat, Pending>, jobs: map<nat, Job>, past: map<nat, Past>, next: nat)
    requires Tidy(pending, jobs, past, next)
    ensures Tidy(pending, jobs, past, next + 1) && next + 1 !in pending && next + 1 !in jobs
    ensures |pending| <= PENDING
  {
    hide Timely, JobOk, PortsDiffer;
  }

  /** A query whose server failed: its waiters are answered when it is late, the router's own or
      has nowhere to go; otherwise it is asked again, of its own server if that still serves. */
  predicate Retried(p: Pending, now: nat, upstreams: seq<nat>, pending: map<nat, Pending>, next: nat,
                    after: map<nat, Pending>, replies: seq<Waiter>, query: Option<nat>)
  {
    if now >= p.deadline || upstreams == [] || p.key.None? then replies == p.waiters && query == None && after == pending
    else
      && replies == [] && query == Some(next + 1) && next + 1 in after && after == pending[next + 1 := after[next + 1]]
      && var q := after[next + 1];
      && q == p.(server := q.server, port := q.port, tcp := false, retry := Min(SatAdd(now, 1000), p.deadline))
      && (if p.server in upstreams then q.server == p.server else q.server == upstreams[0])
  }

  /** A query for the discovery proxy: it joins an equal one, becomes a job, or is refused. */
  ghost predicate Discovered(key: nat, question: Question, w: Waiter, job: Option<nat>, fits: bool, pending: map<nat, Pending>,
                             jobs: map<nat, Job>, next: nat, left: map<nat, Job>, r: Result<(seq<Waiter>, Option<nat>), Error>)
  {
    if exists id :: id in jobs && jobs[id].key == Some(key) then
      r == Ok(([], None)) && exists id :: id in jobs && jobs[id].key == Some(key)
                                          && left == jobs[id := jobs[id].(waiters := jobs[id].waiters + [w])]
    else if |pending| + |jobs| >= 128 || !fits then r == Err(Capacity) && left == jobs
    else if job.None? then r == Err(Failed) && left == jobs
    else r == Ok(([], None)) && left == jobs[next + 1 := Job(Some(key), question, [w], job.value, false, {})]
  }

  lemma JoinsProxy(key: nat, question: Question, w: Waiter, job: Option<nat>, fits: bool, pending: map<nat, Pending>, jobs: map<nat, Job>,
                   next: nat, id: nat)
    requires id in jobs && jobs[id].key == Some(key)
    ensures Discovered(key, question, w, job, fits, pending, jobs, next, jobs[id := jobs[id].(waiters := jobs[id].waiters + [w])], Ok(([], None)))
  {
  }

  lemma NewAtProxy(key: nat, question: Question, w: Waiter, job: Option<nat>, fits: bool, pending: map<nat, Pending>, jobs: map<nat, Job>, next: nat)
    requires forall id :: id in jobs ==> jobs[id].key != Some(key)
    ensures |pending| + |jobs| >= PENDING || !fits ==> Discovered(key, question, w, job, fits, pending, jobs, next, jobs, Err(Capacity))
    ensures |pending| + |jobs| < PENDING && fits && job.None? ==> Discovered(key, question, w, job, fits, pending, jobs, next, jobs, Err(Failed))
    ensures |pending| + |jobs| < PENDING && fits && job.Some? ==>
              Discovered(key, question, w, job, fits, pending, jobs, next,
                         jobs[next + 1 := Job(Some(key), question, [w], job.value, false, {})], Ok(([], None)))
  {
  }

  /** A query for an upstream server: it joins an equal one, is answered when there is no server,
      goes to the first server, or is refused. */
  ghost predicate Forwarded(key: nat, question: Question, w: Waiter, now: nat, fits: bool, upstreams: seq<nat>, pending: map<nat, Pending>,
                            jobs: map<nat, Job>, next: nat, after: map<nat, Pending>, r: Result<(seq<Waiter>, Option<nat>), Error>)
  {
    if exists id :: id in pending && pending[id].key == Some(key) then
      r == Ok(([], None)) && exists id :: id in pending && pending[id].key == Some(key)
                                          && after == pending[id := pending[id].(waiters := pending[id].waiters + [w])]
    else if upstreams == [] then r == Ok(([w], None)) && after == pending
    else if |pending| + |jobs| >= 128 || !fits then r == Err(Capacity) && after == pending
    else
      && r == Ok(([], Some(next + 1))) && next + 1 in after && after == pending[next + 1 := after[next + 1]]
      && Asked(after[next + 1], Some(key), question, [w], upstreams[0], now, false, {})
  }

  lemma JoinsQuery(key: nat, question: Question, w: Waiter, now: nat, fits: bool, upstreams: seq<nat>, pending: map<nat, Pending>,
                   jobs: map<nat, Job>, next: nat, id: nat)
    requires id in pending && pending[id].key == Some(key)
    ensures Forwarded(key, question, w, now, fits, upstreams, pending, jobs, next,
                      pending[id := pending[id].(waiters := pending[id].waiters + [w])], Ok(([], None)))
  {
  }

  lemma NotJoined(key: nat, question: Question, w: Waiter, now: nat, fits: bool, upstreams: seq<nat>, pending: map<nat, Pending>,
                  jobs: map<nat, Job>, next: nat)
    requires forall id :: id in pending ==> pending[id].key != Some(key)
    ensures upstreams == [] ==> Forwarded(key, question, w, now, fits, upstreams, pending, jobs, next, pending, Ok(([w], None)))
    ensures upstreams != [] && (|pending| + |jobs| >= PENDING || !fits) ==>
              Forwarded(key, question, w, now, fits, upstreams, pending, jobs, next, pending, Err(Capacity))
  {
  }

  lemma NewQuery(key: nat, question: Question, w: Waiter, now: nat, upstreams: seq<nat>, pending: map<nat, Pending>,
                 jobs: map<nat, Job>, next: nat, p: Pending)
    requires forall id :: id in pending ==> pending[id].key != Some(key)
    requires upstreams != [] && |pending| + |jobs| < PENDING && Asked(p, Some(key), question, [w], upstreams[0], now, false, {})
    ensures Forwarded(key, question, w, now, true, upstreams, pending, jobs, next, pending[next + 1 := p], Ok(([], Some(next + 1))))
  {
    hide Asked;
    assert pending[next + 1 := p][next + 1] == p;
  }

  // ---------------------------------------------------------------- source ports

  function PortAt(start: nat, n: nat): nat { FIRST_PORT + (start + n) % PORTS }

  lemma PortsAreNew(start: nat, n: nat)
    requires n < PORTS
    ensures forall k: nat :: k < n ==> PortAt(start, k) != PortAt(start, n)
  {
    forall k: nat | k < n
      ensures PortAt(start, k) != PortAt(start, n)
    {
      Residues(start + k, start + n);
    }
  }

  lemma Residues(a: nat, b: nat)
    requires a < b < a + PORTS
    ensures a % PORTS != b % PORTS
  {
    var qa, qb := a / PORTS, b / PORTS;
    assert a == qa * PORTS + a % PORTS && b == qb * PORTS + b % PORTS;
  }

  /** The first port that no query uses; with at most 128 queries there is one. */
  method FreePort(used: set<nat>, start: nat) returns (port: nat)
    requires |used| <= PENDING
    ensures port !in used && FIRST_PORT <= port <= U16_MAX
  {
    hide PortAt;
    var n := 0;
    ghost var tried: set<nat> := {};
    port := PortAtValue(start, n);
    while port in used
      invariant port == PortAt(start, n) && FIRST_PORT <= port <= U16_MAX
      invariant tried <= used && |tried| == n <= PENDING && forall t :: t in tried ==> exists k: nat :: k < n && t == PortAt(start, k)
      decreases PORTS - n
    {
      PortsAreNew(start, n);
      tried := tried + {port};
      SubsetSize(tried, used);
      n := n + 1;
      port := PortAtValue(start, n);
    }
  }

  function PortAtValue(start: nat, n: nat): (p: nat)
    ensures p == PortAt(start, n) && FIRST_PORT <= p <= U16_MAX
  {
    FIRST_PORT + (start + n) % PORTS
  }

  /** How many wait, by counting every queue. */
  method CountLines(lines: map<nat, seq<Waiter>>) returns (n: nat)
    ensures n == |Held(lines)|
  {
    hide Held;
    n := 0;
    var left := lines;
    while left != map[]
      invariant n + |Held(left)| == |Held(lines)|
      decreases |left|
    {
      var k :| k in left;
      HeldWithout(left, k);
      Smaller(left, k);
      n := n + |left[k]|;
      left := left - {k};
    }
    NobodyHeld();
  }

  // ---------------------------------------------------------------- the resolver

  /** Where a new query can be answered; `Answered` covers local data, the cache and refusals
      with a reply. */
  datatype Place = Answered | Discover(job: Option<nat>) | Forward

  datatype Error = Capacity | Failed

  class Forwarder {
    var pending: map<nat, Pending>
    var jobs: map<nat, Job>
    var next: nat
    var upstreams: seq<nat>
    /** The past of each query, and what became of everyone. */
    ghost var past: map<nat, Past>
    ghost var accepted: multiset<Waiter>
    ghost var replied: multiset<Waiter>
    ghost var cancelled: multiset<Waiter>

    ghost predicate Sound()
      reads this
    {
      Tidy(pending, jobs, past, next)
    }

    ghost function Waiting(): multiset<Waiter>
      reads this
    {
      Everyone(pending, jobs)
    }

    /** Everyone accepted waits, was answered once, or went away. */
    ghost predicate Valid()
      reads this
    {
      Sound() && accepted == Waiting() + replied + cancelled && |Waiting()| <= WAITERS
    }

    constructor (upstreams: seq<nat>)
      ensures Valid() && this.upstreams == upstreams && accepted == multiset{} && pending == map[] && jobs == map[]
    {
      pending, jobs, next, this.upstreams := map[], map[], 0, upstreams;
      past, accepted, replied, cancelled := map[], multiset{}, multiset{}, multiset{};
      new;
      assert Lines(pending) == map[] && JobLines(jobs) == map[];
      NobodyHeld();
    }

    /** A new exchange number and a source port that no other query uses. */
    method MakeQuery(start: nat) returns (exchange: nat, port: nat)
      requires Sound() && next < U64_MAX
      modifies this`next
      ensures Sound() && exchange == next == old(next) + 1 && exchange !in pending && exchange !in jobs
      ensures FIRST_PORT <= port <= U16_MAX && forall id :: id in pending ==> pending[id].port != port
    {
      hide Tidy;
      NextGrows(pending, jobs, past, next);
      UsedPorts(pending);
      port := FreePort(UsedBy(pending), start);
      next := next + 1;
      exchange := next;
    }

    /** A query with its number and port enters the table. */
    method Enter(exchange: nat, p: Pending, ghost b: Past)
      requires Sound() && |pending| + |jobs| < PENDING && exchange !in pending && exchange !in jobs && exchange <= next && Timely(p, b)
      requires forall id :: id in pending ==> pending[id].port != p.port
      modifies this`pending, this`past
      ensures Sound() && pending == old(pending)[exchange := p] && Waiting() == old(Waiting()) + multiset(p.waiters)
    {
      hide Tidy, Everyone, Timely;
      PutPending(pending, jobs, past, next, exchange, p, b);
      pending, past := pending[exchange := p], past[exchange := b];
    }

    /** A job under a new number. */
    method EnterJob(j: Job, ghost b: Past)
      requires Sound() && |pending| + |jobs| < PENDING && next < U64_MAX && JobOk(j, b)
      modifies this`jobs, this`next, this`past
      ensures Sound() && next == old(next) + 1 && jobs == old(jobs)[next := j] && Waiting() == old(Waiting()) + multiset(j.waiters)
    {
      hide Tidy, Everyone, JobOk;
      NextGrows(pending, jobs, past, next);
      next := next + 1;
      PutJob(pending, jobs, past, next, next, j, b);
      jobs, past := jobs[next := j], past[next := b];
    }

    /** An Additional-A question: the waiters of `j` are answered with what there is, or wait for
        one more lookup. */
    method Continue(j: Job, question: Question, now: nat, start: nat, route: Route, ghost b: Past)
      returns (replies: seq<Waiter>, query: Option<nat>)
      requires Sound() && |pending| + |jobs| < PENDING && next < U64_MAX && j.key.Some? && |j.aliases| <= ALIASES
      requires b.since == now && b.waited <= TIMEOUT * |Started(j.aliases, question.name)| && b.lookups < |Started(j.aliases, question.name)|
      modifies this`pending, this`jobs, this`next, this`past
      ensures Sound() && next <= old(next) + 1
      ensures Waiting() + multiset(replies) == old(Waiting()) + multiset(j.waiters)
      ensures Continued(j, question, j.aliases, now, route, upstreams, old(pending), old(jobs), old(next), pending, jobs, replies, query)
      ensures forall k :: k in pending ==> k in old(pending) || k > old(next)
    {
      hide Tidy, Everyone, Timely;
      var aliases := Started(j.aliases, question.name);
      if route.Locally? || route.NoRoom? || (route.Proxy? && !route.started) || (route.Upstream? && upstreams == []) {
        return j.waiters, None;
      }
      if route.Proxy? {
        EnterJob(Job(j.key, question, j.waiters, route.job, true, aliases), b.(lookups := b.lookups + 1));
        return [], None;
      }
      var exchange, port := MakeQuery(start);
      var p := Pending(j.key, question, j.waiters, upstreams[0], port, false, SatAdd(now, TIMEOUT), SatAdd(now, 1000), 0, true, aliases);
      ghost var more := b.(lookups := b.lookups + 1);
      OneMoreLookup(p, now, more);
      Enter(exchange, p, more);
      return [], Some(exchange);
    }

    method WaiterCount() returns (n: nat)
      ensures n == |Waiting()|
    {
      hide Everyone;
      var queued := CountLines(Lines(pending));
      var proxied := CountLines(JobLines(jobs));
      CountEveryone(pending, jobs);
      n := queued + proxied;
    }

    /** A client's query: answered at once, joined to an equal one, sent on, or refused. */
    method Submit(key: nat, question: Question, w: Waiter, now: nat, start: nat, place: Place, crowded: bool, room: bool, fits: bool)
      returns (r: Result<(seq<Waiter>, Option<nat>), Error>)
      requires Valid() && next < U64_MAX
      modifies this`pending, this`jobs, this`next, this`past, this`accepted, this`replied
      ensures Valid() && cancelled == old(cancelled)
      ensures r.Err? ==> accepted == old(accepted) && replied == old(replied) && pending == old(pending) && jobs == old(jobs)
      ensures r.Ok? ==> accepted == old(accepted) + multiset{w} && replied == old(replied) + multiset(r.value.0)
      ensures place.Answered? ==> r == Ok(([w], None)) && pending == old(pending) && jobs == old(jobs)
      ensures !place.Answered? && (|old(Waiting())| >= 256 || crowded || !room) ==> r == Err(Capacity)
      ensures !place.Answered? && |old(Waiting())| < 256 && !crowded && room ==>
                && (place.Discover? ==> pending == old(pending)
                                        && Discovered(key, question, w, place.job, fits, old(pending), old(jobs), old(next), jobs, r))
                && (place.Forward? ==> jobs == old(jobs)
                                       && Forwarded(key, question, w, now, fits, upstreams, old(pending), old(jobs), old(next), pending, r))
    {
      hide Tidy, Everyone, Timely, Discovered, Forwarded;
      if place.Answered? {
        AnswerNow(w);
        return Ok(([w], None));
      }
      var busy := WaiterCount();
      if busy >= WAITERS || crowded || !room { return Err(Capacity); }
      if place.Discover? {
        r := SubmitDiscovery(key, question, w, place.job, fits);
      } else {
        r := SubmitUpstream(key, question, w, now, start, fits);
      }
    }

    /** The reply is at hand. */
    ghost method AnswerNow(w: Waiter)
      requires Valid()
      modifies this`accepted, this`replied
      ensures Valid() && accepted == old(accepted) + multiset{w} && replied == old(replied) + multiset([w])
    {
      hide Tidy, Everyone;
      AnswerAtOnce(accepted, Waiting(), replied, cancelled, w);
      accepted, replied := accepted + multiset{w}, replied + multiset([w]);
    }

    /** A job for the same question. */
    method FindJob(key: nat) returns (same: Option<nat>)
      ensures same.Some? ==> same.value in jobs && jobs[same.value].key == Some(key)
      ensures same.None? ==> forall id :: id in jobs ==> jobs[id].key != Some(key)
    {
      var equal := set id | id in jobs && jobs[id].key == Some(key);
      if equal == {} {
        assert forall id :: id in jobs && jobs[id].key == Some(key) ==> id in equal;
        return None;
      }
      var id :| id in equal;
      return Some(id);
    }

    /** A query for the same question. */
    method FindQuery(key: nat) returns (same: Option<nat>)
      ensures same.Some? ==> same.value in pending && pending[same.value].key == Some(key)
      ensures same.None? ==> forall id :: id in pending ==> pending[id].key != Some(key)
    {
      var equal := set id | id in pending && pending[id].key == Some(key);
      if equal == {} {
        assert forall id :: id in pending && pending[id].key == Some(key) ==> id in equal;
        return None;
      }
      var id :| id in equal;
      return Some(id);
    }

    method SubmitDiscovery(key: nat, question: Question, w: Waiter, job: Option<nat>, fits: bool)
      returns (r: Result<(seq<Waiter>, Option<nat>), Error>)
      requires Valid() && next < U64_MAX && |Waiting()| < WAITERS
      modifies this`jobs, this`next, this`past, this`accepted
      ensures Valid()
      ensures r.Err? ==> accepted == old(accepted) && jobs == old(jobs)
      ensures r.Ok? ==> accepted == old(accepted) + multiset{w} && r.value == ([], None)
      ensures Discovered(key, question, w, job, fits, pending, old(jobs), old(next), jobs, r)
    {
      hide Tidy, Everyone, Timely, Discovered;
      var same := FindJob(key);
      if same.Some? {
        JoinsProxy(key, question, w, job, fits, pending, jobs, next, same.value);
        JoinProxy(same.value, w);
        return Ok(([], None));
      }
      NewAtProxy(key, question, w, job, fits, pending, jobs, next);
      if |pending| + |jobs| >= PENDING || !fits { return Err(Capacity); }
      if job.None? { return Err(Failed); }
      EnterJob(Job(Some(key), question, [w], job.value, false, {}), Past(0, 0, 0));
      Enrol(accepted, old(Waiting()), replied, cancelled, Waiting(), w);
      accepted := accepted + multiset{w};
      return Ok(([], None));
    }

    /** One more waits for a job. */
    method JoinProxy(id: nat, w: Waiter)
      requires Valid() && |Waiting()| < WAITERS && id in jobs
      modifies this`jobs, this`accepted
      ensures Valid() && accepted == old(accepted) + multiset{w}
      ensures jobs == old(jobs)[id := old(jobs)[id].(waiters := old(jobs)[id].waiters + [w])]
    {
      hide Tidy, Everyone, Timely;
      JoinJob(pending, jobs, past, next, id, w);
      jobs := jobs[id := jobs[id].(waiters := jobs[id].waiters + [w])];
      Enrol(accepted, old(Waiting()), replied, cancelled, Waiting(), w);
      accepted := accepted + multiset{w};
    }

    method SubmitUpstream(key: nat, question: Question, w: Waiter, now: nat, start: nat, fits: bool)
      returns (r: Result<(seq<Waiter>, Option<nat>), Error>)
      requires Valid() && next < U64_MAX && |Waiting()| < WAITERS
      modifies this`pending, this`next, this`past, this`accepted, this`replied
      ensures Valid()
      ensures r.Err? ==> accepted == old(accepted) && replied == old(replied) && pending == old(pending)
      ensures r.Ok? ==> accepted == old(accepted) + multiset{w} && replied == old(replied) + multiset(r.value.0)
      ensures Forwarded(key, question, w, now, fits, upstreams, old(pending), jobs, old(next), pending, r)
    {
      hide Tidy, Everyone, Timely, Forwarded;
      var same := FindQuery(key);
      if same.Some? {
        JoinsQuery(key, question, w, now, fits, upstreams, pending, jobs, next, same.value);
        JoinQuery(same.value, w);
        return Ok(([], None));
      }
      NotJoined(key, question, w, now, fits, upstreams, pending, jobs, next);
      if upstreams == [] {
        AnswerNow(w);
        return Ok(([w], None));
      }
      if |pending| + |jobs| >= PENDING { return Err(Capacity); }
      r := Ask(key, question, w, now, start, fits);
    }

    /** One more waits for a query under way. */
    method JoinQuery(id: nat, w: Waiter)
      requires Valid() && |Waiting()| < WAITERS && id in pending && pending[id].key.Some?
      modifies this`pending, this`accepted
      ensures Valid() && accepted == old(accepted) + multiset{w}
      ensures pending == old(pending)[id := old(pending)[id].(waiters := old(pending)[id].waiters + [w])]
    {
      hide Tidy, Everyone, Timely;
      JoinPending(pending, jobs, past, next, id, w);
      pending := pending[id := pending[id].(waiters := pending[id].waiters + [w])];
      Enrol(accepted, old(Waiting()), replied, cancelled, Waiting(), w);
      accepted := accepted + multiset{w};
    }

    /** A new query goes to the first server. */
    method Ask(key: nat, question: Question, w: Waiter, now: nat, start: nat, fits: bool)
      returns (r: Result<(seq<Waiter>, Option<nat>), Error>)
      requires Valid() && next < U64_MAX && |Waiting()| < WAITERS && upstreams != [] && |pending| + |jobs| < PENDING
      requires forall id :: id in pending ==> pending[id].key != Some(key)
      modifies this`pending, this`next, this`past, this`accepted
      ensures Valid()
      ensures r.Err? ==> accepted == old(accepted) && pending == old(pending)
      ensures r.Ok? ==> accepted == old(accepted) + multiset{w} && r.value.0 == []
      ensures Forwarded(key, question, w, now, fits, upstreams, old(pending), jobs, old(next), pending, r)
    {
      hide Tidy, Everyone, Timely, Forwarded;
      NotJoined(key, question, w, now, fits, upstreams, pending, jobs, next);
      var exchange, port := MakeQuery(start);
      if !fits { return Err(Capacity); }
      var p := Pending(Some(key), question, [w], upstreams[0], port, false, SatAdd(now, TIMEOUT), SatAdd(now, 1000), 0, false, {});
      FirstLookup(p, now);
      NewQuery(key, question, w, now, upstreams, pending, jobs, old(next), p);
      Enter(exchange, p, Past(now, 0, 0));
      Enrol(accepted, old(Waiting()), replied, cancelled, Waiting(), w);
      accepted := accepted + multiset{w};
      return Ok(([], Some(exchange)));
    }

    /** The waiters of `j` are answered, or an Additional-A lookup goes on for them. */
    method Respond(j: Job, m: Answer, enabled: bool, now: nat, start: nat, route: Route, ghost b: Past)
      returns (replies: seq<Waiter>, query: Option<nat>)
      requires Sound() && |pending| + |jobs| < PENDING && next < U64_MAX && AliasesOk(j.base, j.aliases)
      requires if j.key.None? then !j.base && j.question.kind != AAAA
               else b.since == now && b.waited <= TIMEOUT * (|j.aliases| + 1) && b.lookups <= |j.aliases|
      modifies this`pending, this`jobs, this`next, this`past
      ensures Sound() && Waiting() + multiset(replies) == old(Waiting()) + multiset(j.waiters)
      ensures forall k :: k in pending ==> k in old(pending) || k > old(next)
      ensures Answers(j, m, enabled, now, route, upstreams, old(pending), old(jobs), old(next), pending, jobs, replies, query)
    {
      hide Tidy, Everyone, Answers, Continued, Leaves, Follow, EndsAfter, Visited;
      if j.base {
        var more, seen := AdditionalAlias(m, j.question, j.aliases);
        if more.Some? {
          replies, query := Continue(j.(aliases := seen), more.value, now, start, route, b);
          AliasAnswers(j, m, enabled, now, route, upstreams, old(pending), old(jobs), old(next), pending, jobs, replies, query, more.value, seen);
        } else {
          replies, query := j.waiters, None;
          NothingMore(j, m, enabled, now, route, upstreams, pending, jobs, next, replies, query);
        }
      } else {
        var extra := AdditionalQuestion(m, j.question, enabled);
        if extra.Some? {
          replies, query := Continue(j, extra.value, now, start, route, b);
          ExtraAnswers(j, m, enabled, now, route, upstreams, old(pending), old(jobs), old(next), pending, jobs, replies, query);
        } else {
          replies, query := j.waiters, None;
          NothingMore(j, m, enabled, now, route, upstreams, pending, jobs, next, replies, query);
        }
      }
    }

    /** A response. `genuine` tells that it matches the query; a truncated one is asked again
        over TCP. */
    method Receive(id: nat, genuine: bool, truncated: bool, m: Answer, enabled: bool, now: nat, start: nat, route: Route)
      returns (replies: seq<Waiter>, query: Option<nat>)
      requires Valid() && next < U64_MAX
      modifies this`pending, this`jobs, this`next, this`past, this`replied
      ensures Valid() && accepted == old(accepted) && cancelled == old(cancelled) && replied == old(replied) + multiset(replies)
      ensures id in old(pending) && genuine && now < old(pending)[id].deadline && !truncated ==>
                && id !in pending
                && Answers(FromPending(old(pending)[id]), m, enabled, now, route, upstreams, old(pending) - {id}, old(jobs), old(next),
                           pending, jobs, replies, query)
      ensures id in old(pending) && genuine && now < old(pending)[id].deadline && truncated && !old(pending)[id].tcp ==>
                && replies == [] && query == Some(id) && jobs == old(jobs)
                && pending == old(pending)[id := old(pending)[id].(tcp := true, retry := old(pending)[id].deadline)]
      ensures id !in old(pending) || !genuine || now >= old(pending)[id].deadline || (truncated && old(pending)[id].tcp) ==>
                replies == [] && query == None && pending == old(pending) && jobs == old(jobs)
    {
      hide Tidy, Everyone, Timely, Answers;
      if id !in pending || !genuine || now >= pending[id].deadline { return [], None; }
      if truncated {
        if pending[id].tcp { return [], None; }
        OverTcp(id);
        return [], Some(id);
      }
      replies, query := AnswerQuery(id, m, enabled, now, start, route);
    }

    /** A response that counts: the query ends. */
    method AnswerQuery(id: nat, m: Answer, enabled: bool, now: nat, start: nat, route: Route)
      returns (replies: seq<Waiter>, query: Option<nat>)
      requires Valid() && next < U64_MAX && id in pending && now < pending[id].deadline
      modifies this`pending, this`jobs, this`next, this`past, this`replied
      ensures Valid() && accepted == old(accepted) && cancelled == old(cancelled) && replied == old(replied) + multiset(replies)
      ensures id !in pending
      ensures Answers(FromPending(old(pending)[id]), m, enabled, now, route, upstreams, old(pending) - {id}, old(jobs), old(next),
                      pending, jobs, replies, query)
    {
      hide Tidy, Everyone, Timely, Answers;
      var p := pending[id];
      TakePending(pending, jobs, past, next, id);
      TimelyFacts(p, past[id]);
      SpentUpstream(p, past[id], now);
      ghost var since := past[id];
      pending := pending - {id};
      replies, query := Respond(FromPending(p), m, enabled, now, start, route, Past(now, Spent(since, now), since.lookups));
      Settle(accepted, old(Waiting()), replied, cancelled, Waiting(), multiset(replies));
      replied := replied + multiset(replies);
    }

    /** The same query again, over TCP and until its deadline. */
    method OverTcp(id: nat)
      requires Valid() && id in pending
      modifies this`pending
      ensures Valid() && pending == old(pending)[id := old(pending)[id].(tcp := true, retry := old(pending)[id].deadline)]
    {
      hide Tidy, Everyone, Timely;
      var p := pending[id];
      TakePending(pending, jobs, past, next, id);
      Retimed(p, past[id], p.server, p.port, true, p.deadline, p.attempt);
      PutPending(pending - {id}, jobs, past, next, id, p.(tcp := true, retry := p.deadline), past[id]);
      PutBack(pending, past, id, p.(tcp := true, retry := p.deadline), past[id]);
      pending := pending[id := p.(tcp := true, retry := p.deadline)];
    }

    /** The discovery proxy finished a job. */
    method JobDone(id: nat, m: Answer, enabled: bool, now: nat, start: nat, route: Route)
      returns (replies: seq<Waiter>, query: Option<nat>)
      requires Valid() && next < U64_MAX && id in jobs
      modifies this`pending, this`jobs, this`next, this`past, this`replied
      ensures Valid() && accepted == old(accepted) && cancelled == old(cancelled) && replied == old(replied) + multiset(replies)
      ensures Answers(old(jobs)[id], m, enabled, now, route, upstreams, old(pending), old(jobs) - {id}, old(next),
                      pending, jobs, replies, query)
    {
      hide Tidy, Everyone, Timely, Answers;
      var j := jobs[id];
      TakeJob(pending, jobs, past, next, id);
      ghost var before := past[id];
      jobs := jobs - {id};
      replies, query := Respond(j, m, enabled, now, start, route, Past(now, before.waited, before.lookups));
      Settle(accepted, old(Waiting()), replied, cancelled, Waiting(), multiset(replies));
      replied := replied + multiset(replies);
    }

    /** A query its server cannot answer: it ends when it is late, internal or has nowhere to go,
        and is asked again otherwise. */
    method Retry(p: Pending, now: nat, start: nat, ghost since: Past) returns (replies: seq<Waiter>, query: Option<nat>)
      requires Sound() && |pending| + |jobs| < PENDING && next < U64_MAX && Timely(p, since)
      modifies this`pending, this`next, this`past
      ensures Sound() && old(next) <= next <= old(next) + 1 && Waiting() + multiset(replies) == old(Waiting()) + multiset(p.waiters)
      ensures query.Some? ==> query.value == next && next !in old(pending)
      ensures Retried(p, now, upstreams, old(pending), old(next), pending, replies, query)
    {
      hide Tidy, Everyone, Timely;
      if now >= p.deadline || upstreams == [] || p.key.None? {
        return p.waiters, None;
      }
      var server := if p.server in upstreams then p.server else upstreams[0];
      var exchange, port := MakeQuery(start);
      var q := p.(server := server, port := port, tcp := false, retry := Min(SatAdd(now, 1000), p.deadline), attempt := p.attempt);
      Retimed(p, since, server, port, false, Min(SatAdd(now, 1000), p.deadline), p.attempt);
      Enter(exchange, q, since);
      return [], Some(exchange);
    }

    method FailUpstream(id: nat, now: nat, start: nat) returns (replies: seq<Waiter>, query: Option<nat>)
      requires Valid() && next < U64_MAX
      modifies this`pending, this`next, this`past, this`replied
      ensures Valid() && accepted == old(accepted) && cancelled == old(cancelled) && replied == old(replied) + multiset(replies)
      ensures id !in pending && jobs == old(jobs)
      ensures id !in old(pending) ==> replies == [] && query == None && pending == old(pending)
      ensures id in old(pending) ==> Retried(old(pending)[id], now, upstreams, old(pending) - {id}, old(next), pending, replies, query)
    {
      hide Tidy, Everyone, Timely;
      if id !in pending { return [], None; }
      var p := pending[id];
      TakePending(pending, jobs, past, next, id);
      ghost var since := past[id];
      pending := pending - {id};
      replies, query := Retry(p, now, start, since);
      Settle(accepted, old(Waiting()), replied, cancelled, Waiting(), multiset(replies));
      replied := replied + multiset(replies);
    }

    /** A query of the router's own: it waits for nobody. */
    method StartProbe(question: Question, server: nat, until: nat, start: nat) returns (r: Result<nat, Error>)
      requires Valid() && next < U64_MAX && question.kind != AAAA
      modifies this`pending, this`next, this`past
      ensures Valid() && accepted == old(accepted) && replied == old(replied) && cancelled == old(cancelled) && Waiting() == old(Waiting())
      ensures r.Ok? <==> |old(pending)| + |old(jobs)| < PENDING
      ensures r.Err? ==> pending == old(pending) && jobs == old(jobs)
      ensures r.Ok? ==> && r.value == old(next) + 1 && r.value in pending && pending == old(pending)[r.value := pending[r.value]] && jobs == old(jobs)
                        && var p := pending[r.value]; p == Pending(None, question, [], server, p.port, false, until, until, 0, false, {})
    {
      hide Tidy, Everyone;
      if |pending| + |jobs| >= PENDING { return Err(Capacity); }
      var exchange, port := MakeQuery(start);
      var p := Pending(None, question, [], server, port, false, until, until, 0, false, {});
      Enter(exchange, p, Past(0, 0, 0));
      return Ok(exchange);
    }

    /** One query at a tick: late ones end, overdue ones go to the next server. */
    method TickOne(p: Pending, id: nat, privacy: bool, now: nat, start: nat, ghost since: Past)
      returns (replies: seq<Waiter>, ghost n: nat)
      requires Sound() && |pending| + |jobs| < PENDING && next < U64_MAX && Timely(p, since) && id !in pending && id !in jobs && id <= next
      requires forall j :: j in pending ==> pending[j].port != p.port
      modifies this`pending, this`next, this`past
      ensures Sound() && old(next) <= next <= old(next) + 1 && Waiting() + multiset(replies) == old(Waiting()) + multiset(p.waiters)
      ensures Ends(p, privacy, upstreams, now) ==> replies == p.waiters && pending == old(pending)
      ensures !Ends(p, privacy, upstreams, now) ==>
                && replies == [] && n !in old(pending) && n <= next && n in pending && pending == old(pending)[n := pending[n]]
                && GoesOn(p, pending[n], id, n, old(next), privacy, upstreams, now)
    {
      hide Tidy, Everyone, Timely, GoesOn, ServerInTurn, Backoff;
      n := id;
      if privacy && p.server !in upstreams {
        var answered, query := Retry(p, now, start, since);
        n := next;
        if query.Some? { Orphaned(p, pending[n], id, n, old(next), privacy, upstreams, now); }
        return answered, n;
      }
      if now >= p.deadline { return p.waiters, n; }
      if now >= p.retry && !p.tcp {
        var attempt := p.attempt + 1;
        var server := ServerInTurn(upstreams, attempt, p.server);
        var exchange, port := MakeQuery(start);
        var retry := Min(SatAdd(now, Backoff(attempt)), p.deadline);
        Retimed(p, since, server, port, false, retry, attempt);
        var q := p.(server := server, port := port, tcp := false, retry := retry, attempt := attempt);
        Overdue(p, q, id, exchange, old(next), privacy, upstreams, now);
        Enter(exchange, q, since);
        n := exchange;
      } else {
        Unmoved(p, id, next, privacy, upstreams, now);
        Enter(id, p, since);
      }
      return [], n;
    }

    method TickNext(id: nat, privacy: bool, now: nat, start: nat) returns (replies: seq<Waiter>, ghost n: nat)
      requires Sound() && id in pending && next < U64_MAX
      modifies this`pending, this`next, this`past
      ensures Sound() && old(next) <= next <= old(next) + 1 && Waiting() + multiset(replies) == old(Waiting())
      ensures Ends(old(pending)[id], privacy, upstreams, now) ==> replies == old(pending)[id].waiters && pending == old(pending) - {id}
      ensures !Ends(old(pending)[id], privacy, upstreams, now) ==>
                && replies == [] && n !in old(pending) - {id} && n <= next && n in pending
                && pending == (old(pending) - {id})[n := pending[n]]
                && GoesOn(old(pending)[id], pending[n], id, n, old(next), privacy, upstreams, now)
    {
      hide Tidy, Everyone, Timely, Ends, GoesOn;
      var p := pending[id];
      TakePending(pending, jobs, past, next, id);
      ghost var since := past[id];
      pending := pending - {id};
      replies, n := TickOne(p, id, privacy, now, start, since);
    }

    method TickAll(now: nat, privacy: bool, starts: map<nat, nat>) returns (replies: seq<Waiter>, ghost went: map<nat, nat>)
      requires Sound() && next + PENDING < U64_MAX && pending.Keys <= starts.Keys
      modifies this`pending, this`next, this`past
      ensures Sound() && Waiting() + multiset(replies) == old(Waiting())
      ensures Ticked(old(pending), pending, went, old(next), privacy, upstreams, now)
      ensures multiset(replies) == Held(Lines(Ended(old(pending), privacy, upstreams, now)))
    {
      hide Tidy, Everyone, Timely, Ends, GoesOn, InTick, Held, Lines, Ended;
      replies, went := [], map[];
      var left := pending.Keys;
      ghost var first := next;
      TidyFacts(pending, jobs, past, next);
      TickBegins(pending, first, privacy, upstreams, now);
      while left != {}
        invariant Sound() && left <= old(pending).Keys && next + |left| <= first + PENDING && first <= next
        invariant Waiting() + multiset(replies) == old(Waiting())
        invariant InTick(old(pending), pending, left, went, first, next, replies, privacy, upstreams, now)
        decreases |left|
      {
        var id :| id in left;
        ghost var waiting, before, last := Waiting(), pending, next;
        InTickFacts(old(pending), pending, left, went, first, next, replies, privacy, upstreams, now, id);
        var more;
        ghost var n;
        more, n := TickNext(id, privacy, now, starts[id]);
        Collect(waiting, Waiting(), replies, more, old(Waiting()));
        if Ends(old(pending)[id], privacy, upstreams, now) {
          TickEnds(old(pending), before, left, went, first, last, replies, privacy, upstreams, now, id, next);
        } else {
          TickGoesOn(old(pending), before, left, went, first, last, replies, privacy, upstreams, now, id, next, n, pending);
          went := went[id := n];
        }
        replies, left := replies + more, left - {id};
      }
      TickOver(old(pending), pending, went, first, next, replies, privacy, upstreams, now);
    }

    /** A tick replies exactly to the waiters of the queries that end, and every other query goes
        on, under its number in `went`. No query is then past its deadline, so no client waits
        longer for upstream servers than ten seconds for each of at most eighteen lookups. */
    method Tick(now: nat, privacy: bool, starts: map<nat, nat>) returns (replies: seq<Waiter>, ghost went: map<nat, nat>)
      requires Valid() && next + PENDING < U64_MAX && pending.Keys <= starts.Keys
      modifies this`pending, this`next, this`past, this`replied
      ensures Valid() && accepted == old(accepted) && cancelled == old(cancelled) && replied == old(replied) + multiset(replies)
      ensures jobs == old(jobs) && Ticked(old(pending), pending, went, old(next), privacy, upstreams, now)
      ensures multiset(replies) == Held(Lines(Ended(old(pending), privacy, upstreams, now)))
      ensures forall id :: id in pending ==> now < pending[id].deadline
      ensures forall id :: id in pending && pending[id].key.Some? ==>
                id in past && Spent(past[id], now) < TIMEOUT * (ALIASES + 1) && past[id].lookups <= ALIASES
    {
      hide Tidy, Everyone, Timely, Ticked, Ended, Held, Lines;
      replies, went := TickAll(now, privacy, starts);
      TickedInTime(old(pending), pending, went, old(next), privacy, upstreams, now);
      TidyFacts(pending, jobs, past, next);
      Settle(accepted, old(Waiting()), replied, cancelled, Waiting(), multiset(replies));
      replied := replied + multiset(replies);
    }

    /** A client's connection closes: its own waiters go, and only they. */
    method CancelConnection(connection: int)
      requires Valid()
      modifies this`pending, this`jobs, this`cancelled
      ensures Valid() && accepted == old(accepted) && replied == old(replied)
      ensures forall w :: Waiting()[w] == if w.connection == connection then 0 else old(Waiting())[w]
    {
      hide Tidy, Everyone, Others;
      ghost var before := Waiting();
      var kept := map id | id in pending && (pending[id].key.None? || Others(pending[id].waiters, connection) != []) ::
        pending[id].(waiters := Others(pending[id].waiters, connection));
      var left := map id | id in jobs && Others(jobs[id].waiters, connection) != [] ::
        jobs[id].(waiters := Others(jobs[id].waiters, connection));
      CancelFacts(pending, jobs, past, next, connection, kept, left);
      pending, jobs := kept, left;
      cancelled := cancelled + (before - Waiting());
    }
  }

  lemma SpentUpstream(p: Pending, since: Past, now: nat)
    requires Timely(p, since) && now < p.deadline
    ensures p.key.Some? ==> Spent(since, now) <= TIMEOUT * (|p.aliases| + 1) && since.lookups <= |p.aliases|
  {
  }

  lemma AliasAnswers(j: Job, m: Answer, enabled: bool, now: nat, route: Route, upstreams: seq<nat>, pending: map<nat, Pending>,
                     jobs: map<nat, Job>, next: nat, after: map<nat, Pending>, left: map<nat, Job>, replies: seq<Waiter>,
                     query: Option<nat>, more: Question, seen: set<Name>)
    requires j.base && Continued(j.(aliases := seen), more, seen, now, route, upstreams, pending, jobs, next, after, left, replies, query)
    requires exists n: nat :: Leaves(m, j.question, j.aliases, n)
    requires forall n: nat :: Leaves(m, j.question, j.aliases, n) ==>
               && Follow(m, j.question.name, n).Some? && more == Question(Follow(m, j.question.name, n).value, A)
               && seen == j.aliases + Visited(m, j.question.name, n)
    ensures Answers(j, m, enabled, now, route, upstreams, pending, jobs, next, after, left, replies, query)
  {
    hide Leaves, Follow, EndsAfter, Visited, Asked;
  }

  lemma ExtraAnswers(j: Job, m: Answer, enabled: bool, now: nat, route: Route, upstreams: seq<nat>, pending: map<nat, Pending>,
                     jobs: map<nat, Job>, next: nat, after: map<nat, Pending>, left: map<nat, Job>, replies: seq<Waiter>, query: Option<nat>)
    requires !j.base && AdditionalQuestion(m, j.question, enabled).Some?
    requires Continued(j, AdditionalQuestion(m, j.question, enabled).value, j.aliases, now, route, upstreams, pending, jobs, next,
                       after, left, replies, query)
    ensures Answers(j, m, enabled, now, route, upstreams, pending, jobs, next, after, left, replies, query)
  {
    hide Leaves, Follow, EndsAfter, Visited, Continued, AdditionalQuestion;
  }

  lemma NothingMore(j: Job, m: Answer, enabled: bool, now: nat, route: Route, upstreams: seq<nat>, pending: map<nat, Pending>,
                    jobs: map<nat, Job>, next: nat, replies: seq<Waiter>, query: Option<nat>)
    requires replies == j.waiters && query == None
    requires if j.base then forall n: nat :: !Leaves(m, j.question, j.aliases, n) else AdditionalQuestion(m, j.question, enabled).None?
    ensures Answers(j, m, enabled, now, route, upstreams, pending, jobs, next, pending, jobs, replies, query)
  {
    hide Leaves, Follow, EndsAfter, Visited, Continued, AdditionalQuestion;
  }

  // ---------------------------------------------------------------- a tick over all queries

  lemma Orphaned(p: Pending, q: Pending, id: nat, n: nat, last: nat, privacy: bool, upstreams: seq<nat>, now: nat)
    requires privacy && p.server !in upstreams && upstreams != [] && n > last
    requires q == p.(server := upstreams[0], port := q.port, tcp := false, retry := Min(SatAdd(now, 1000), p.deadline))
    ensures GoesOn(p, q, id, n, last, privacy, upstreams, now)
  {
  }

  lemma Overdue(p: Pending, q: Pending, id: nat, n: nat, last: nat, privacy: bool, upstreams: seq<nat>, now: nat)
    requires !(privacy && p.server !in upstreams) && now >= p.retry && !p.tcp && n > last
    requires q == p.(server := ServerInTurn(upstreams, p.attempt + 1, p.server), port := q.port,
                     retry := Min(SatAdd(now, Backoff(p.attempt + 1)), p.deadline), attempt := p.attempt + 1)
    ensures GoesOn(p, q, id, n, last, privacy, upstreams, now)
  {
  }

  lemma Unmoved(p: Pending, id: nat, last: nat, privacy: bool, upstreams: seq<nat>, now: nat)
    requires !(privacy && p.server !in upstreams) && (now < p.retry || p.tcp)
    ensures GoesOn(p, p, id, id, last, privacy, upstreams, now)
  {
  }

  /** What is still to come is as it was. */
  ghost predicate ToCome(before: map<nat, Pending>, pending: map<nat, Pending>, left: set<nat>, first: nat)
  {
    && (forall id :: id in before ==> id <= first)
    && (forall id :: id in left ==> id in before && id in pending && pending[id] == before[id])
  }

  ghost predicate Goers(before: map<nat, Pending>, left: set<nat>, went: map<nat, nat>, privacy: bool, upstreams: seq<nat>, now: nat)
  {
    forall id :: id in went <==> id in before && id !in left && !Ends(before[id], privacy, upstreams, now)
  }

  ghost predicate Apart(went: map<nat, nat>) { forall i, j :: i in went && j in went && i != j ==> went[i] != went[j] }

  ghost predicate Landed(before: map<nat, Pending>, pending: map<nat, Pending>, left: set<nat>, went: map<nat, nat>, first: nat, last: nat,
                         privacy: bool, upstreams: seq<nat>, now: nat)
  {
    forall id :: id in went ==> && id in before && went[id] in pending && went[id] !in left && went[id] <= last
                                && GoesOn(before[id], pending[went[id]], id, went[id], first, privacy, upstreams, now)
  }

  ghost predicate Covered(pending: map<nat, Pending>, left: set<nat>, went: map<nat, nat>)
  {
    forall n :: n in pending && n !in left ==> exists id :: id in went && went[id] == n
  }

  ghost predicate Replied(before: map<nat, Pending>, left: set<nat>, replies: seq<Waiter>, privacy: bool, upstreams: seq<nat>, now: nat)
  {
    multiset(replies) == Held(Lines(DoneWith(before, left, privacy, upstreams, now)))
  }

  ghost function DoneWith(before: map<nat, Pending>, left: set<nat>, privacy: bool, upstreams: seq<nat>, now: nat): map<nat, Pending>
  {
    map id | id in before && id !in left && Ends(before[id], privacy, upstreams, now) :: before[id]
  }

  /** Half-way through a tick: `left` is still to come, the others went on or were answered. */
  ghost predicate InTick(before: map<nat, Pending>, pending: map<nat, Pending>, left: set<nat>, went: map<nat, nat>, first: nat, last: nat,
                         replies: seq<Waiter>, privacy: bool, upstreams: seq<nat>, now: nat)
  {
    && ToCome(before, pending, left, first) && Goers(before, left, went, privacy, upstreams, now) && Apart(went)
    && Landed(before, pending, left, went, first, last, privacy, upstreams, now) && Covered(pending, left, went)
    && Replied(before, left, replies, privacy, upstreams, now)
  }

  lemma TickBegins(before: map<nat, Pending>, first: nat, privacy: bool, upstreams: seq<nat>, now: nat)
    requires forall id :: id in before ==> id <= first
    ensures InTick(before, before, before.Keys, map[], first, first, [], privacy, upstreams, now)
  {
    hide Ends, GoesOn, Held;
    assert Lines(DoneWith(before, before.Keys, privacy, upstreams, now)) == map[];
    NobodyHeld();
  }

  lemma InTickFacts(before: map<nat, Pending>, pending: map<nat, Pending>, left: set<nat>, went: map<nat, nat>, first: nat, last: nat,
                    replies: seq<Waiter>, privacy: bool, upstreams: seq<nat>, now: nat, id: nat)
    requires InTick(before, pending, left, went, first, last, replies, privacy, upstreams, now) && id in left
    ensures id in before && id in pending && pending[id] == before[id]
  {
    hide Goers, Apart, Landed, Covered, Replied;
  }

  lemma RepliedMore(before: map<nat, Pending>, left: set<nat>, replies: seq<Waiter>, privacy: bool, upstreams: seq<nat>, now: nat, id: nat)
    requires Replied(before, left, replies, privacy, upstreams, now) && id in left && id in before
    ensures Replied(before, left - {id}, replies + if Ends(before[id], privacy, upstreams, now) then before[id].waiters else [],
                    privacy, upstreams, now)
  {
    hide Ends, Held, Lines;
    var was, more := DoneWith(before, left, privacy, upstreams, now), DoneWith(before, left - {id}, privacy, upstreams, now);
    if Ends(before[id], privacy, upstreams, now) {
      assert more == was[id := before[id]] && id !in was;
      LinesPut(was, id, before[id]);
      HeldWith(Lines(was), id, before[id].waiters);
      assert multiset(replies + before[id].waiters) == multiset(replies) + multiset(before[id].waiters);
    } else {
      assert more == was && replies + [] == replies;
    }
  }

  lemma LandedStay(before: map<nat, Pending>, pending: map<nat, Pending>, left: set<nat>, went: map<nat, nat>, first: nat, last: nat,
                   privacy: bool, upstreams: seq<nat>, now: nat, id: nat, next: nat, after: map<nat, Pending>)
    requires Landed(before, pending, left, went, first, last, privacy, upstreams, now) && id in left && last <= next
    requires forall n :: n in pending && n != id ==> n in after && after[n] == pending[n]
    ensures Landed(before, after, left - {id}, went, first, next, privacy, upstreams, now)
  {
    hide GoesOn;
  }

  lemma TickEnds(before: map<nat, Pending>, pending: map<nat, Pending>, left: set<nat>, went: map<nat, nat>, first: nat, last: nat,
                 replies: seq<Waiter>, privacy: bool, upstreams: seq<nat>, now: nat, id: nat, next: nat)
    requires InTick(before, pending, left, went, first, last, replies, privacy, upstreams, now) && id in left && last <= next
    requires id in before && Ends(before[id], privacy, upstreams, now)
    ensures InTick(before, pending - {id}, left - {id}, went, first, next, replies + before[id].waiters, privacy, upstreams, now)
  {
    hide Ends, Landed, Replied;
    RepliedMore(before, left, replies, privacy, upstreams, now, id);
    LandedStay(before, pending, left, went, first, last, privacy, upstreams, now, id, next, pending - {id});
  }

  lemma TickGoesOn(before: map<nat, Pending>, pending: map<nat, Pending>, left: set<nat>, went: map<nat, nat>, first: nat, last: nat,
                   replies: seq<Waiter>, privacy: bool, upstreams: seq<nat>, now: nat, id: nat, next: nat, n: nat, after: map<nat, Pending>)
    requires InTick(before, pending, left, went, first, last, replies, privacy, upstreams, now) && id in left && first <= last <= next
    requires id in before && !Ends(before[id], privacy, upstreams, now)
    requires n !in pending - {id} && n <= next && n in after && after == (pending - {id})[n := after[n]]
    requires GoesOn(before[id], after[n], id, n, last, privacy, upstreams, now)
    ensures InTick(before, after, left - {id}, went[id := n], first, next, replies + [], privacy, upstreams, now)
  {
    hide Ends, Landed, Replied, GoesOn, Covered, Apart, Goers, ToCome;
    LaterNumber(before[id], after[n], id, n, first, last, privacy, upstreams, now);
    NotYet(before, pending, left, went, first, privacy, upstreams, now, id, n);
    RepliedMore(before, left, replies, privacy, upstreams, now, id);
    LandedStay(before, pending, left, went, first, last, privacy, upstreams, now, id, next, after);
    OneLanded(before, after, left - {id}, went, first, next, privacy, upstreams, now, id, n);
    OneApart(before, pending, left, went, first, last, privacy, upstreams, now, id, n);
    OneCovered(pending, left, went, id, n, after);
    OneGoer(before, left, went, privacy, upstreams, now, id, n);
    StillToCome(before, pending, left, first, id, n, after);
  }

  lemma NotYet(before: map<nat, Pending>, pending: map<nat, Pending>, left: set<nat>, went: map<nat, nat>, first: nat,
               privacy: bool, upstreams: seq<nat>, now: nat, id: nat, n: nat)
    requires ToCome(before, pending, left, first) && Goers(before, left, went, privacy, upstreams, now) && id in left && n !in pending - {id}
    ensures id !in went && n !in left - {id}
  {
    hide Ends;
  }

  lemma OneGoer(before: map<nat, Pending>, left: set<nat>, went: map<nat, nat>, privacy: bool, upstreams: seq<nat>, now: nat, id: nat, n: nat)
    requires Goers(before, left, went, privacy, upstreams, now) && id in left && id in before && !Ends(before[id], privacy, upstreams, now)
    ensures Goers(before, left - {id}, went[id := n], privacy, upstreams, now)
  {
    hide Ends;
  }

  lemma StillToCome(before: map<nat, Pending>, pending: map<nat, Pending>, left: set<nat>, first: nat, id: nat, n: nat, after: map<nat, Pending>)
    requires ToCome(before, pending, left, first) && n !in pending - {id} && n in after && after == (pending - {id})[n := after[n]]
    ensures ToCome(before, after, left - {id}, first)
  {
  }

  lemma OneLanded(before: map<nat, Pending>, after: map<nat, Pending>, left: set<nat>, went: map<nat, nat>, first: nat, last: nat,
                  privacy: bool, upstreams: seq<nat>, now: nat, id: nat, n: nat)
    requires Landed(before, after, left, went, first, last, privacy, upstreams, now) && id in before && n in after && n !in left && n <= last
    requires GoesOn(before[id], after[n], id, n, first, privacy, upstreams, now)
    ensures Landed(before, after, left, went[id := n], first, last, privacy, upstreams, now)
  {
    hide GoesOn;
  }

  lemma OneApart(before: map<nat, Pending>, pending: map<nat, Pending>, left: set<nat>, went: map<nat, nat>, first: nat, last: nat,
                 privacy: bool, upstreams: seq<nat>, now: nat, id: nat, n: nat)
    requires Landed(before, pending, left, went, first, last, privacy, upstreams, now) && Apart(went) && id in left && n !in pending - {id}
    ensures Apart(went[id := n])
  {
    hide GoesOn;
  }

  lemma OneCovered(pending: map<nat, Pending>, left: set<nat>, went: map<nat, nat>, id: nat, n: nat, after: map<nat, Pending>)
    requires Covered(pending, left, went) && id in left && id !in went && n in after && after == (pending - {id})[n := after[n]]
    ensures Covered(after, left - {id}, went[id := n])
  {
    var more := went[id := n];
    forall k | k in after && k !in left - {id}
      ensures exists i :: i in more && more[i] == k
    {
      if k == n {
        assert id in more && more[id] == k;
      } else {
        var i :| i in went && went[i] == k;
        assert i in more && more[i] == k;
      }
    }
  }

  lemma LaterNumber(p: Pending, q: Pending, id: nat, n: nat, first: nat, last: nat, privacy: bool, upstreams: seq<nat>, now: nat)
    requires GoesOn(p, q, id, n, last, privacy, upstreams, now) && first <= last
    ensures GoesOn(p, q, id, n, first, privacy, upstreams, now) && (n == id || n > first)
  {
  }

  lemma TickOver(before: map<nat, Pending>, pending: map<nat, Pending>, went: map<nat, nat>, first: nat, last: nat,
                 replies: seq<Waiter>, privacy: bool, upstreams: seq<nat>, now: nat)
    requires InTick(before, pending, {}, went, first, last, replies, privacy, upstreams, now)
    ensures Ticked(before, pending, went, first, privacy, upstreams, now)
    ensures multiset(replies) == Held(Lines(Ended(before, privacy, upstreams, now)))
  {
    hide Ends, GoesOn, Held, Lines, Covered;
    CoveredAll(pending, went);
    assert DoneWith(before, {}, privacy, upstreams, now) == Ended(before, privacy, upstreams, now);
  }

  lemma CoveredAll(pending: map<nat, Pending>, went: map<nat, nat>)
    requires Covered(pending, {}, went)
    ensures forall n :: n in pending ==> exists id :: id in went && went[id] == n
  {
  }

  lemma TickedInTime(before: map<nat, Pending>, after: map<nat, Pending>, went: map<nat, nat>, last: nat,
                     privacy: bool, upstreams: seq<nat>, now: nat)
    requires Ticked(before, after, went, last, privacy, upstreams, now)
    ensures forall n :: n in after ==> now < after[n].deadline
  {
  }

  /** The aliases of a chain that starts at `name`. */
  function Started(aliases: set<Name>, name: Name): (r: set<Name>)
    ensures r == if aliases == {} then {name} else aliases
    ensures |r| >= 1 && (|aliases| <= ALIASES ==> |r| <= ALIASES)
  {
    if aliases == {} then {name} else aliases
  }

  function UsedBy(pending: map<nat, Pending>): set<nat> { set id | id in pending :: pending[id].port }

  lemma {:induction false} UsedPorts(pending: map<nat, Pending>)
    ensures |UsedBy(pending)| <= |pending|
    decreases |pending|
  {
    var used := UsedBy(pending);
    if pending != map[] {
      var k :| k in pending;
      Sizes(pending, k, pending[k]);
      UsedPorts(pending - {k});
      var rest := UsedBy(pending - {k});
      forall port | port in used
        ensures port in rest + {pending[k].port}
      {
        var id :| id in pending && pending[id].port == port;
        if id != k { assert id in pending - {k} && (pending - {k})[id].port == port; }
      }
      SubsetSize(used, rest + {pending[k].port});
    } else {
      assert used == {};
    }
  }

  lemma OneMoreLookup(p: Pending, now: nat, b: Past)
    requires p.base && 1 <= |p.aliases| <= ALIASES && p.key.Some?
    requires p.deadline == SatAdd(now, TIMEOUT) && b.since == now && b.waited <= TIMEOUT * |p.aliases| && b.lookups <= |p.aliases|
    ensures Timely(p, b)
  {
  }

  lemma FirstLookup(p: Pending, now: nat)
    requires !p.base && p.aliases == {} && p.key.Some? && p.deadline == SatAdd(now, TIMEOUT)
    ensures Timely(p, Past(now, 0, 0))
  {
  }

  lemma TimelyFacts(p: Pending, since: Past)
    requires Timely(p, since)
    ensures |p.aliases| <= ALIASES && AliasesOk(p.base, p.aliases)
    ensures p.key.None? ==> p.waiters == [] && !p.base && p.question.kind != AAAA
  {
  }

  lemma Retimed(p: Pending, since: Past, server: nat, port: nat, tcp: bool, retry: nat, attempt: nat)
    requires Timely(p, since)
    ensures Timely(p.(server := server, port := port, tcp := tcp, retry := retry, attempt := attempt), since)
  {
  }

  lemma PutBack(pending: map<nat, Pending>, past: map<nat, Past>, id: nat, p: Pending, since: Past)
    requires id in pending && id in past && past[id] == since
    ensures (pending - {id})[id := p] == pending[id := p] && past[id := since] == past
  {
  }

  lemma CountEveryone(pending: map<nat, Pending>, jobs: map<nat, Job>)
    ensures |Everyone(pending, jobs)| == |Held(Lines(pending))| + |Held(JobLines(jobs))|
  {
    hide Held, Lines, JobLines;
  }

  /** Replies leave the queues and enter the answered. */
  lemma Settle(accepted: multiset<Waiter>, before: multiset<Waiter>, replied: multiset<Waiter>, cancelled: multiset<Waiter>,
               after: multiset<Waiter>, replies: multiset<Waiter>)
    requires accepted == before + replied + cancelled && after + replies == before
    ensures accepted == after + (replied + replies) + cancelled && |after| <= |before|
  {
  }

  lemma AnswerAtOnce(accepted: multiset<Waiter>, waiting: multiset<Waiter>, replied: multiset<Waiter>, cancelled: multiset<Waiter>, w: Waiter)
    requires accepted == waiting + replied + cancelled
    ensures accepted + multiset{w} == waiting + (replied + multiset([w])) + cancelled
  {
    assert multiset([w]) == multiset{w};
  }

  lemma Enrol(accepted: multiset<Waiter>, before: multiset<Waiter>, replied: multiset<Waiter>, cancelled: multiset<Waiter>,
              after: multiset<Waiter>, w: Waiter)
    requires accepted == before + replied + cancelled && after == before + multiset{w}
    ensures accepted + multiset{w} == after + replied + cancelled && |after| == |before| + 1
  {
  }

  /** `attempt` counts through the servers. */
  function ServerInTurn(upstreams: seq<nat>, attempt: nat, server: nat): nat
  {
    if upstreams == [] then server else upstreams[attempt % |upstreams|]
  }

  /** `1000 << attempt.min(3)`. */
  function Backoff(attempt: nat): nat
  {
    if attempt == 0 then 1000 else if attempt == 1 then 2000 else if attempt == 2 then 4000 else 8000
  }

  lemma TidyFacts(pending: map<nat, Pending>, jobs: map<nat, Job>, past: map<nat, Past>, next: nat)
    requires Tidy(pending, jobs, past, next)
    ensures |pending.Keys| <= PENDING && forall id :: id in pending ==> id <= next && id in past
    ensures forall id :: id in pending && pending[id].key.Some? ==>
              && past[id].waited + pending[id].deadline <= past[id].since + TIMEOUT * (ALIASES + 1)
              && past[id].waited <= TIMEOUT * ALIASES && past[id].lookups <= ALIASES
  {
    assert |pending| == |pending.Keys|;
    forall id | id in pending && pending[id].key.Some?
      ensures past[id].waited + pending[id].deadline <= past[id].since + TIMEOUT * (ALIASES + 1)
      ensures past[id].waited <= TIMEOUT * ALIASES && past[id].lookups <= ALIASES
    {
      assert Timely(pending[id], past[id]);
    }
  }

  lemma Collect(waiting: multiset<Waiter>, after: multiset<Waiter>, replies: seq<Waiter>, more: seq<Waiter>, all: multiset<Waiter>)
    requires waiting + multiset(replies) == all && after + multiset(more) == waiting
    ensures after + multiset(replies + more) == all
  {
    assert multiset(replies + more) == multiset(replies) + multiset(more);
  }

  lemma CancelFacts(pending: map<nat, Pending>, jobs: map<nat, Job>, past: map<nat, Past>, next: nat, connection: int,
                    kept: map<nat, Pending>, left: map<nat, Job>)
    requires Tidy(pending, jobs, past, next)
    requires kept == map id | id in pending && (pending[id].key.None? || Others(pending[id].waiters, connection) != []) ::
                       pending[id].(waiters := Others(pending[id].waiters, connection))
    requires left == map id | id in jobs && Others(jobs[id].waiters, connection) != [] ::
                       jobs[id].(waiters := Others(jobs[id].waiters, connection))
    ensures Tidy(kept, left, past, next)
    ensures forall w :: Everyone(kept, left)[w] == if w.connection == connection then 0 else Everyone(pending, jobs)[w]
    ensures Everyone(kept, left) <= Everyone(pending, jobs)
  {
    hide Held, Others, Tidy, Timely, Lines, JobLines, Pruned;
    CancelledIsTidy(pending, jobs, past, next, connection, kept, left);
    PrunedLines(pending, jobs, connection, kept, left);
    forall w
      ensures Everyone(kept, left)[w] == if w.connection == connection then 0 else Everyone(pending, jobs)[w]
    {
      PrunedCount(Lines(pending), connection, Lines(kept), w);
      PrunedCount(JobLines(jobs), connection, JobLines(left), w);
    }
  }

  lemma PrunedLines(pending: map<nat, Pending>, jobs: map<nat, Job>, connection: int, kept: map<nat, Pending>, left: map<nat, Job>)
    requires kept == map id | id in pending && (pending[id].key.None? || Others(pending[id].waiters, connection) != []) ::
                       pending[id].(waiters := Others(pending[id].waiters, connection))
    requires left == map id | id in jobs && Others(jobs[id].waiters, connection) != [] ::
                       jobs[id].(waiters := Others(jobs[id].waiters, connection))
    ensures Pruned(Lines(pending), connection, Lines(kept)) && Pruned(JobLines(jobs), connection, JobLines(left))
  {
    hide Others;
  }

  lemma CancelledIsTidy(pending: map<nat, Pending>, jobs: map<nat, Job>, past: map<nat, Past>, next: nat, connection: int,
                        kept: map<nat, Pending>, left: map<nat, Job>)
    requires Tidy(pending, jobs, past, next)
    requires kept.Keys <= pending.Keys && forall id :: id in kept ==>
               kept[id] == pending[id].(waiters := Others(pending[id].waiters, connection))
    requires left.Keys <= jobs.Keys && forall id :: id in left ==> left[id] == jobs[id].(waiters := Others(jobs[id].waiters, connection))
    ensures Tidy(kept, left, past, next)
  {
    hide Timely, JobOk, Others;
    SubsetSize(kept.Keys, pending.Keys);
    SubsetSize(left.Keys, jobs.Keys);
    assert |kept| == |kept.Keys| && |pending| == |pending.Keys| && |left| == |left.Keys| && |jobs| == |jobs.Keys|;
    forall id | id in kept
      ensures id <= next && id in past && Timely(kept[id], past[id])
    {
      FewerWaiters(pending[id], past[id], connection);
    }
    forall id | id in left
      ensures id <= next && id in past && JobOk(left[id], past[id])
    {
      FewerAtJob(jobs[id], past[id], connection);
    }
  }

  lemma FewerWaiters(p: Pending, b: Past, connection: int)
    requires Timely(p, b)
    ensures Timely(p.(waiters := Others(p.waiters, connection)), b)
  {
  }

  lemma FewerAtJob(j: Job, b: Past, connection: int)
    requires JobOk(j, b)
    ensures JobOk(j.(waiters := Others(j.waiters, connection)), b)
  {
  }
}
