/** Route promises of src/router/mod.rs, budget.rs and routes.rs: what router advertisements
    carry, and how promises end. */
module RouteExports {
  import opened Bytes
  import opened Results
  import opened UdpSegment

  datatype Link = Ail | Stub

  datatype Prefix = Prefix(address: nat, length: nat)

  datatype Key = Key(link: Link, prefix: Prefix)

  datatype Lifetime = Until(time: nat) | Infinite

  datatype Rio = Rio(prefix: Prefix, lifetime: nat)

  const FOREVER := 0xffff_ffff
  const REPEATS := 3

  function FromSecs(now: nat, seconds: nat): Lifetime
  {
    if seconds == FOREVER then Infinite else Until(SatAdd(now, seconds * 1000))
  }

  predicate Live(v: Lifetime, now: nat) { v.Infinite? || v.time > now }

  /** Octets of a route information option. */
  function Size(p: Prefix): (n: nat)
    ensures n in {8, 16, 24}
  {
    if p.length == 0 then 8 else if p.length <= 64 then 16 else 24
  }

  /** The octets of the option itself: type 24, its length in units of eight, the prefix length, the
      preference, the lifetime, and as much of the address as the prefix length needs. */
  function Encoded(p: Prefix, preference: byte, lifetime: nat): (b: seq<byte>)
    requires p.length <= 128
    ensures |b| == Size(p) == 8 * b[1] as int
  {
    var n := if p.length == 0 then 1 else if p.length <= 64 then 2 else 3;
    [24, n, p.length, preference] + Octets(lifetime, 2) + Octets(p.address, 8)[..(n - 1) * 8]
  }

  /** Octets for routes in a 1280-octet packet, after the headers and the largest set of PIOs. */
  function Budget(link: Link): nat
  {
    1280 - 40 - 16 - 8 - if link.Ail? then 32 else 8 + 17 * 32
  }

  datatype Book = Book(advertised: map<Key, Lifetime>, withdrawals: map<Key, nat>)

  // ---------------------------------------------------------------- history

  /** One route information option that was sent. */
  datatype Event = Event(now: nat, key: Key, lifetime: nat)

  /** What the last positive option promised. */
  function Promise(h: seq<Event>, k: Key): Option<Lifetime>
  {
    if h == [] then None
    else
      var e := h[|h| - 1];
      if e.key == k && e.lifetime > 0 then Some(FromSecs(e.now, e.lifetime)) else Promise(h[..|h| - 1], k)
  }

  /** How many zero-lifetime options followed it. */
  function Zeros(h: seq<Event>, k: Key): nat
  {
    if h == [] then 0
    else
      var e := h[|h| - 1];
      if e.key != k then Zeros(h[..|h| - 1], k)
      else if e.lifetime > 0 then 0
      else 1 + Zeros(h[..|h| - 1], k)
  }

  lemma OneMore(h: seq<Event>, e: Event, k: Key)
    ensures Promise(h + [e], k) == if e.key == k && e.lifetime > 0 then Some(FromSecs(e.now, e.lifetime)) else Promise(h, k)
    ensures Zeros(h + [e], k) == if e.key != k then Zeros(h, k) else if e.lifetime > 0 then 0 else 1 + Zeros(h, k)
  {
    assert (h + [e])[..|h|] == h;
  }

  /** The book agrees with the history: an entry is the last promise; a promise that is live and
      was not taken back three times is in the book, whatever happened to the counters. */
  ghost predicate Honest(b: Book, h: seq<Event>, now: nat)
  {
    && (forall k :: k in b.advertised ==> Promise(h, k) == Some(b.advertised[k]))
    && (forall k :: k in b.withdrawals ==> b.withdrawals[k] <= REPEATS)
    && (forall k :: k in b.withdrawals && k in b.advertised ==> 1 <= b.withdrawals[k] && Zeros(h, k) + b.withdrawals[k] >= REPEATS)
    && (forall k :: Owed(h, k, now) ==> k in b.advertised)
  }

  ghost predicate Owed(h: seq<Event>, k: Key, now: nat)
  {
    Promise(h, k).Some? && Live(Promise(h, k).value, now) && Zeros(h, k) < REPEATS
  }

  // ---------------------------------------------------------------- transitions

  /** The effect of one sent option. */
  function Sent(b: Book, e: Event): Book
  {
    var k := e.key;
    if e.lifetime > 0 then Book(b.advertised[k := FromSecs(e.now, e.lifetime)], b.withdrawals - {k})
    else if k !in b.advertised then b
    else
      var count := if k in b.withdrawals then b.withdrawals[k] else REPEATS;
      var left := if count > 0 then count - 1 else 0;
      Book(if left == 0 then b.advertised - {k} else b.advertised, b.withdrawals[k := left])
  }

  function SentAll(b: Book, h: seq<Event>): Book
  {
    if h == [] then b else Sent(SentAll(b, h[..|h| - 1]), h[|h| - 1])
  }

  lemma SentAllStep(b: Book, h: seq<Event>, e: Event)
    ensures SentAll(b, h + [e]) == Sent(SentAll(b, h), e)
  {
    assert (h + [e])[..|h|] == h;
  }

  /** Three zero-lifetime options in a row end a promise, and not two. */
  lemma ThreeEnd(b: Book, h: seq<Event>, k: Key)
    requires k in b.advertised && k !in b.withdrawals
    requires |h| == 3 && forall e :: e in h ==> e.key == k && e.lifetime == 0
    ensures k in SentAll(b, h[..2]).advertised && k !in SentAll(b, h).advertised
  {
    var b1, b2 := Sent(b, h[0]), Sent(Sent(b, h[0]), h[1]);
    assert SentAll(b, h[..0]) == b && h[..1] == h[..0] + [h[0]] && h[..2] == h[..1] + [h[1]] && h == h[..2] + [h[2]];
    SentAllStep(b, h[..0], h[0]);
    SentAllStep(b, h[..1], h[1]);
    SentAllStep(b, h[..2], h[2]);
  }

  function Reaped(b: Book, now: nat): Book
  {
    var advertised := map k | k in b.advertised && Live(b.advertised[k], now) :: b.advertised[k];
    Book(advertised, map k | k in b.withdrawals && k in advertised :: b.withdrawals[k])
  }

  /** After all options: counters that reached zero go. */
  function Settled(b: Book): Book
  {
    b.(withdrawals := map k | k in b.withdrawals && b.withdrawals[k] > 0 :: b.withdrawals[k])
  }

  lemma SentKeepsHonest(b: Book, h: seq<Event>, e: Event)
    requires Honest(b, h, e.now)
    ensures Honest(Sent(b, e), h + [e], e.now)
  {
    hide Promise, Zeros, FromSecs;
    var c, g := Sent(b, e), h + [e];
    forall k
      ensures k in c.advertised ==> Promise(g, k) == Some(c.advertised[k])
      ensures k in c.withdrawals ==> c.withdrawals[k] <= REPEATS
      ensures k in c.withdrawals && k in c.advertised ==> 1 <= c.withdrawals[k] && Zeros(g, k) + c.withdrawals[k] >= REPEATS
      ensures Owed(g, k, e.now) ==> k in c.advertised
    {
      OneMore(h, e, k);
      assert Owed(h, k, e.now) ==> k in b.advertised;
    }
  }

  lemma ReapKeepsHonest(b: Book, h: seq<Event>, now: nat)
    requires Honest(b, h, now)
    ensures Honest(Reaped(b, now), h, now)
  {
    hide Promise, Zeros;
  }

  lemma SettleKeepsHonest(b: Book, h: seq<Event>, now: nat)
    requires Honest(b, h, now)
    ensures Honest(Settled(b), h, now)
  {
    hide Promise, Zeros;
  }

  // ---------------------------------------------------------------- in plain numbers

  /** Nothing in `more` is about `k`. */
  predicate Elsewhere(more: seq<Event>, k: Key) { forall i :: 0 <= i < |more| ==> more[i].key != k }

  lemma {:induction false} ElsewhereIsNothing(h: seq<Event>, more: seq<Event>, k: Key)
    requires Elsewhere(more, k)
    ensures Promise(h + more, k) == Promise(h, k) && Zeros(h + more, k) == Zeros(h, k)
    decreases |more|
  {
    if more == [] {
      assert h + more == h;
    } else {
      var rest, e := more[..|more| - 1], more[|more| - 1];
      ElsewhereIsNothing(h, rest, k);
      assert h + more == (h + rest) + [e];
      OneMore(h + rest, e, k);
    }
  }

  /** A route sent with a lifetime of `seconds` at `t`, and nothing sent for it since: it is owed, and
      in the table, for exactly 1000 times as many milliseconds; 0xffffffff seconds never end. (The
      clock stops at its last value.) */
  lemma PromiseInNumbers(b: Book, h: seq<Event>, t: nat, k: Key, seconds: nat, more: seq<Event>, now: nat)
    requires 0 < seconds && Elsewhere(more, k) && Honest(b, h + [Event(t, k, seconds)] + more, now)
    ensures var g := h + [Event(t, k, seconds)] + more;
            var lasts := seconds == 0xffff_ffff || now < (if t + 1000 * seconds <= U64_MAX then t + 1000 * seconds else U64_MAX);
            && (Owed(g, k, now) <==> lasts)
            && (lasts ==> k in b.advertised && k.prefix in LivePrefixes(b.advertised, k.link, now))
            && (k in Reaped(b, now).advertised <==> lasts)
  {
    hide Promise, Zeros;
    var e := Event(t, k, seconds);
    OneMore(h, e, k);
    ElsewhereIsNothing(h + [e], more, k);
  }

  /** A reap in plain terms. */
  lemma ReapedExactly(b: Book, now: nat, k: Key)
    ensures k in Reaped(b, now).advertised <==> k in b.advertised && (b.advertised[k] == Infinite || b.advertised[k].time > now)
    ensures k in Reaped(b, now).advertised ==> Reaped(b, now).advertised[k] == b.advertised[k]
    ensures k in Reaped(b, now).withdrawals <==> k in b.withdrawals && k in Reaped(b, now).advertised
    ensures k in Reaped(b, now).withdrawals ==> Reaped(b, now).withdrawals[k] == b.withdrawals[k]
  {
  }

  /** Three advertisements in a row that take a route back end its promise, and not two. */
  lemma ThreeAdvertisementsEnd(b: Book, k: Key, t1: nat, t2: nat, t3: nat)
    requires k in b.advertised && k !in b.withdrawals
    ensures var b1 := Settled(SentAll(b, [Event(t1, k, 0)])); var b2 := Settled(SentAll(b1, [Event(t2, k, 0)]));
            k in b1.advertised && k in b2.advertised && k !in Settled(SentAll(b2, [Event(t3, k, 0)])).advertised
  {
    SendsOne(b, Event(t1, k, 0));
    var b1 := Settled(SentAll(b, [Event(t1, k, 0)]));
    SendsOne(b1, Event(t2, k, 0));
    SendsOne(Settled(SentAll(b1, [Event(t2, k, 0)])), Event(t3, k, 0));
  }

  lemma SendsOne(b: Book, e: Event)
    ensures SentAll(b, [e]) == Sent(b, e)
  {
    SentAllStep(b, [], e);
    assert [] + [e] == [e];
  }

  /** Time only ends promises. */
  lemma LaterIsHonest(b: Book, h: seq<Event>, now: nat, later: nat)
    requires Honest(b, h, now) && now <= later
    ensures Honest(b, h, later)
  {
    hide Promise, Zeros;
    forall k | Owed(h, k, later)
      ensures k in b.advertised
    {
      assert Owed(h, k, now);
    }
  }

  /** Starting or restarting a withdrawal, and cancelling one, break no promise. */
  lemma CountersAreFree(b: Book, h: seq<Event>, now: nat, k: Key)
    requires Honest(b, h, now)
    ensures Honest(b.(withdrawals := b.withdrawals[k := REPEATS]), h, now)
    ensures Honest(b.(withdrawals := b.withdrawals - {k}), h, now)
  {
    hide Promise, Zeros;
  }

  // ---------------------------------------------------------------- sizes

  ghost function Total(s: set<Prefix>): nat
  {
    if s == {} then 0 else var p :| p in s; Size(p) + Total(s - {p})
  }

  lemma {:induction false} TotalWithout(s: set<Prefix>, p: Prefix)
    requires p in s
    ensures Total(s) == Size(p) + Total(s - {p})
    decreases |s|
  {
    var q :| q in s && Total(s) == Size(q) + Total(s - {q});
    if q != p {
      TotalWithout(s - {q}, p);
      TotalWithout(s - {p}, q);
      assert s - {q} - {p} == s - {p} - {q};
    }
  }

  lemma TotalWith(s: set<Prefix>, p: Prefix)
    requires p !in s
    ensures Total(s + {p}) == Total(s) + Size(p)
  {
    TotalWithout(s + {p}, p);
    assert s + {p} - {p} == s;
  }

  lemma {:induction false} TotalMonotone(a: set<Prefix>, b: set<Prefix>)
    requires a <= b
    ensures Total(a) <= Total(b)
    decreases |a|
  {
    if a != {} {
      var p :| p in a;
      TotalWithout(a, p);
      TotalWithout(b, p);
      TotalMonotone(a - {p}, b - {p});
    }
  }

  function LivePrefixes(advertised: map<Key, Lifetime>, link: Link, now: nat): set<Prefix>
  {
    set k | k in advertised && k.link == link && Live(advertised[k], now) :: k.prefix
  }

  predicate Withdrawn(b: Book, link: Link, p: Prefix) { Key(link, p) in b.withdrawals }

  /** The candidates that are not being withdrawn. */
  ghost function Open(b: Book, candidates: seq<Rio>): set<Prefix>
  {
    set r | r in candidates && !Withdrawn(b, Ail, r.prefix) :: r.prefix
  }

  predicate Unique(rios: seq<Rio>)
  {
    forall i, j :: 0 <= i < |rios| && 0 <= j < |rios| && rios[i].prefix == rios[j].prefix ==> i == j
  }

  /** First choice: candidates in the caller's order, as many as fit. */
  method Choose(b: Book, candidates: seq<Rio>) returns (desired: map<Prefix, nat>)
    requires Unique(candidates)
    ensures Total(desired.Keys) <= Budget(Ail) && desired.Keys <= Open(b, candidates)
    ensures forall p :: p in desired ==> Rio(p, desired[p]) in candidates
    ensures Total(Open(b, candidates)) <= Budget(Ail) ==> desired.Keys == Open(b, candidates)
    ensures Preferred(b, candidates, |candidates|, desired)
  {
    hide Total, Preferred, Open;
    NoneOpen(b, candidates);
    desired := map[];
    var available: nat := Budget(Ail);
    EmptyTotal();
    assert desired.Keys == {} == Open(b, candidates[..0]);
    NonePreferred(b, candidates);
    for i := 0 to |candidates|
      invariant available + Total(desired.Keys) == Budget(Ail) && desired.Keys <= Open(b, candidates[..i])
      invariant forall p :: p in desired ==> Rio(p, desired[p]) in candidates
      invariant Total(Open(b, candidates)) <= Budget(Ail) ==> desired.Keys == Open(b, candidates[..i])
      invariant Preferred(b, candidates, i, desired)
    {
      var r := candidates[i];
      OpenStep(b, candidates, i);
      PreferStep(b, candidates, i, desired);
      if !Withdrawn(b, Ail, r.prefix) {
        var size := Size(r.prefix);
        TotalWith(desired.Keys, r.prefix);
        TotalMonotone(desired.Keys + {r.prefix}, Open(b, candidates));
        if size <= available {
          available := available - size;
          assert desired[r.prefix := r.lifetime].Keys == desired.Keys + {r.prefix};
          desired := desired[r.prefix := r.lifetime];
        }
      }
    }
    assert candidates[..|candidates|] == candidates;
  }

  /** Candidate `i` is open and fits after those before it that were taken. */
  ghost predicate Fits(b: Book, candidates: seq<Rio>, i: nat, taken: set<Prefix>)
    requires i < |candidates|
  {
    var p := candidates[i].prefix;
    p !in (set r | r in candidates[..i] :: r.prefix) && !Withdrawn(b, Ail, p) && Size(p) + Total(Open(b, candidates[..i]) * taken) <= 1184
  }

  /** Of the first `n` candidates, in the caller's order, each one that fits after those before it. */
  ghost predicate Preferred(b: Book, candidates: seq<Rio>, n: nat, desired: map<Prefix, nat>)
    requires n <= |candidates|
  {
    forall i :: 0 <= i < n ==>
      && (candidates[i].prefix in desired <==> Fits(b, candidates, i, desired.Keys))
      && (candidates[i].prefix in desired ==> desired[candidates[i].prefix] == candidates[i].lifetime)
  }

  lemma NoneOpen(b: Book, candidates: seq<Rio>)
    ensures Open(b, candidates[..0]) == {}
  {
  }

  lemma NonePreferred(b: Book, candidates: seq<Rio>)
    ensures Preferred(b, candidates, 0, map[])
  {
  }

  lemma EarlierStays(b: Book, candidates: seq<Rio>, i: nat, j: nat, taken: set<Prefix>)
    requires Unique(candidates) && j < i < |candidates|
    ensures Fits(b, candidates, j, taken + {candidates[i].prefix}) == Fits(b, candidates, j, taken)
    ensures candidates[j].prefix != candidates[i].prefix
  {
    var before := Open(b, candidates[..j]);
    forall q | q in candidates[..j]
      ensures q.prefix != candidates[i].prefix
    {
      var k :| 0 <= k < j && q == candidates[k];
    }
    assert before * (taken + {candidates[i].prefix}) == before * taken;
  }

  lemma PreferStep(b: Book, candidates: seq<Rio>, i: nat, desired: map<Prefix, nat>)
    requires Unique(candidates) && i < |candidates| && desired.Keys <= Open(b, candidates[..i]) && Preferred(b, candidates, i, desired)
    ensures var r := candidates[i];
            if !Withdrawn(b, Ail, r.prefix) && Size(r.prefix) + Total(desired.Keys) <= 1184
            then Preferred(b, candidates, i + 1, desired[r.prefix := r.lifetime])
            else Preferred(b, candidates, i + 1, desired)
  {
    hide Total, Open, Fits;
    var r := candidates[i];
    var more := desired[r.prefix := r.lifetime];
    NewHere(b, candidates, i);
    LastFits(b, candidates, i, desired.Keys);
    assert more.Keys == desired.Keys + {r.prefix};
    forall j | 0 <= j < i
      ensures candidates[j].prefix != r.prefix && Fits(b, candidates, j, more.Keys) == Fits(b, candidates, j, desired.Keys)
    {
      EarlierStays(b, candidates, i, j, desired.Keys);
    }
  }

  lemma NewHere(b: Book, candidates: seq<Rio>, i: nat)
    requires Unique(candidates) && i < |candidates|
    ensures candidates[i].prefix !in (set r | r in candidates[..i] :: r.prefix) && candidates[i].prefix !in Open(b, candidates[..i])
  {
    forall q | q in candidates[..i]
      ensures q.prefix != candidates[i].prefix
    {
      var j :| 0 <= j < i && q == candidates[j];
    }
  }

  lemma LastFits(b: Book, candidates: seq<Rio>, i: nat, taken: set<Prefix>)
    requires i < |candidates| && taken <= Open(b, candidates[..i]) && candidates[i].prefix !in (set r | r in candidates[..i] :: r.prefix)
    requires candidates[i].prefix !in Open(b, candidates[..i])
    ensures var p, fits := candidates[i].prefix, !Withdrawn(b, Ail, candidates[i].prefix) && Size(candidates[i].prefix) + Total(taken) <= 1184;
            Fits(b, candidates, i, taken) == fits && Fits(b, candidates, i, taken + {p}) == fits
  {
    hide Total, Open;
    var before := Open(b, candidates[..i]);
    assert before * taken == taken && before * (taken + {candidates[i].prefix}) == taken;
  }

  lemma EmptyTotal()
    ensures Total({}) == 0
  {
  }

  lemma OpenStep(b: Book, candidates: seq<Rio>, i: nat)
    requires Unique(candidates) && i < |candidates|
    ensures var r := candidates[i];
            && r.prefix !in Open(b, candidates[..i]) && Open(b, candidates[..i]) <= Open(b, candidates)
            && Open(b, candidates[..i + 1]) == Open(b, candidates[..i]) + (if Withdrawn(b, Ail, r.prefix) then {} else {r.prefix})
            && (!Withdrawn(b, Ail, r.prefix) ==> r.prefix in Open(b, candidates))
  {
    assert candidates[..i + 1] == candidates[..i] + [candidates[i]];
    forall q | q in candidates[..i]
      ensures q.prefix != candidates[i].prefix && q in candidates
    {
      var j :| 0 <= j < i && q == candidates[j];
    }
    assert candidates[i] in candidates;
  }

  /** Live promises come first, positive where still wanted and zero otherwise. */
  method Repeat(advertised: set<Prefix>, desired: map<Prefix, nat>) returns (out: map<Prefix, nat>, available: nat)
    ensures out.Keys == advertised
    ensures forall p :: p in out ==> out[p] == if p in desired then desired[p] else 0
    ensures available == Left(Budget(Ail), Total(advertised))
  {
    hide Repeated, Left, Size;
    out, available := map[], Budget(Ail);
    var todo := advertised;
    RepeatStarts(desired);
    while todo != {}
      invariant todo <= advertised && Repeated(advertised - todo, desired, out, available)
      decreases |todo|
    {
      var p :| p in todo;
      RepeatStep(advertised - todo, desired, out, available, p);
      assert advertised - (todo - {p}) == advertised - todo + {p};
      out := out[p := if p in desired then desired[p] else 0];
      available := Left(available, Size(p));
      todo := todo - {p};
    }
    assert advertised - todo == advertised;
    RepeatEnds(advertised, desired, out, available);
  }

  ghost predicate Repeated(done: set<Prefix>, desired: map<Prefix, nat>, out: map<Prefix, nat>, available: nat)
  {
    && out.Keys == done && (forall p :: p in out ==> out[p] == if p in desired then desired[p] else 0)
    && available == Left(Budget(Ail), Total(done))
  }

  lemma RepeatStarts(desired: map<Prefix, nat>)
    ensures forall s: set<Prefix> :: Repeated(s - s, desired, map[], Budget(Ail))
  {
    EmptyTotal();
    forall s: set<Prefix>
      ensures Repeated(s - s, desired, map[], Budget(Ail))
    {
      assert s - s == {};
    }
  }

  lemma RepeatStep(done: set<Prefix>, desired: map<Prefix, nat>, out: map<Prefix, nat>, available: nat, p: Prefix)
    requires Repeated(done, desired, out, available) && p !in done
    ensures Repeated(done + {p}, desired, out[p := if p in desired then desired[p] else 0], Left(available, Size(p)))
  {
    hide Total;
    TotalWith(done, p);
  }

  lemma RepeatEnds(done: set<Prefix>, desired: map<Prefix, nat>, out: map<Prefix, nat>, available: nat)
    requires Repeated(done, desired, out, available)
    ensures out.Keys == done && (forall p :: p in out ==> out[p] == if p in desired then desired[p] else 0)
    ensures available == Left(Budget(Ail), Total(done))
  {
  }

  /** `saturating_sub`. */
  function Left(n: nat, used: nat): nat { if used <= n then n - used else 0 }

  /** New routes take what is left. */
  method Admit(out0: map<Prefix, nat>, desired: map<Prefix, nat>, room: nat) returns (out: map<Prefix, nat>)
    ensures out0.Keys <= out.Keys <= out0.Keys + desired.Keys
    ensures forall p :: p in out ==> out[p] == if p in out0 then out0[p] else desired[p]
    ensures Total(out.Keys) <= Total(out0.Keys) + room
    ensures Total(out0.Keys + desired.Keys) <= Total(out0.Keys) + room ==> out.Keys == out0.Keys + desired.Keys
    ensures forall p :: p in desired && p !in out ==> Size(p) + Total(out.Keys) > Total(out0.Keys) + room
  {
    hide Admitting, Size, Total;
    out := out0;
    var available: nat := room;
    var todo := desired.Keys - out0.Keys;
    AdmitStarts(out0, desired, room);
    while todo != {}
      invariant todo <= desired.Keys - out0.Keys && Admitting(out0, desired, room, todo, out, available)
      decreases |todo|
    {
      var p :| p in todo;
      AdmitStep(out0, desired, room, todo, out, available, p);
      if Size(p) <= available {
        available := available - Size(p);
        out := out[p := desired[p]];
      }
      todo := todo - {p};
    }
    AdmitEnds(out0, desired, room, out, available);
  }

  ghost predicate Admitting(out0: map<Prefix, nat>, desired: map<Prefix, nat>, room: nat, todo: set<Prefix>,
                            out: map<Prefix, nat>, available: nat)
  {
    var all := out0.Keys + desired.Keys;
    && out0.Keys <= out.Keys <= all - todo
    && (forall p :: p in out ==> out[p] == if p in out0 then out0[p] else desired[p])
    && available + Total(out.Keys) == Total(out0.Keys) + room
    && (Total(all) <= Total(out0.Keys) + room ==> out.Keys == all - todo)
    && (forall p :: p in desired && p !in out && p !in todo ==> Size(p) + Total(out.Keys) > Total(out0.Keys) + room)
  }

  lemma AdmitStarts(out0: map<Prefix, nat>, desired: map<Prefix, nat>, room: nat)
    ensures Admitting(out0, desired, room, desired.Keys - out0.Keys, out0, room)
  {
    assert out0.Keys + desired.Keys - (desired.Keys - out0.Keys) == out0.Keys;
  }

  lemma AdmitStep(out0: map<Prefix, nat>, desired: map<Prefix, nat>, room: nat, todo: set<Prefix>,
                  out: map<Prefix, nat>, available: nat, p: Prefix)
    requires Admitting(out0, desired, room, todo, out, available) && p in todo && todo <= desired.Keys - out0.Keys
    ensures Size(p) <= available ==> Admitting(out0, desired, room, todo - {p}, out[p := desired[p]], available - Size(p))
    ensures Size(p) > available ==> Admitting(out0, desired, room, todo - {p}, out, available)
  {
    hide Total, Size;
    var all := out0.Keys + desired.Keys;
    TotalWith(out.Keys, p);
    TotalMonotone(out.Keys + {p}, all);
    assert all - (todo - {p}) == all - todo + {p};
    assert out[p := desired[p]].Keys == out.Keys + {p};
  }

  lemma AdmitEnds(out0: map<Prefix, nat>, desired: map<Prefix, nat>, room: nat, out: map<Prefix, nat>, available: nat)
    requires Admitting(out0, desired, room, {}, out, available)
    ensures out0.Keys <= out.Keys <= out0.Keys + desired.Keys
    ensures forall p :: p in out ==> out[p] == if p in out0 then out0[p] else desired[p]
    ensures Total(out.Keys) <= Total(out0.Keys) + room
    ensures Total(out0.Keys + desired.Keys) <= Total(out0.Keys) + room ==> out.Keys == out0.Keys + desired.Keys
    ensures forall p :: p in desired && p !in out ==> Size(p) + Total(out.Keys) > Total(out0.Keys) + room
  {
    hide Total;
    assert out0.Keys + desired.Keys - {} == out0.Keys + desired.Keys;
  }

  /** The options for what is wanted: every live promise is repeated, with its lifetime if it is still
      wanted and zero otherwise, and only a new route that does not fit beside the others is left out. */
  ghost predicate Budgeted(live: set<Prefix>, desired: map<Prefix, nat>, out: map<Prefix, nat>)
  {
    && (forall p :: p in live ==> p in out && out[p] == if p in desired then desired[p] else 0)
    && (forall p :: p in out && p !in live ==> p in desired && out[p] == desired[p])
    && (forall p :: p in desired && p !in out ==> Size(p) + Total(out.Keys) > 1184)
  }

  /** `budget_ail`: what is wanted are the candidates that fit, in order; live promises come first,
      and when everything fits, everything is in. */
  method BudgetAil(b: Book, candidates: seq<Rio>, now: nat) returns (out: map<Prefix, nat>, ghost desired: map<Prefix, nat>)
    requires Unique(candidates)
    ensures Preferred(b, candidates, |candidates|, desired) && desired.Keys <= Open(b, candidates)
    ensures Budgeted(LivePrefixes(b.advertised, Ail, now), desired, out)
    ensures LivePrefixes(b.advertised, Ail, now) <= out.Keys <= LivePrefixes(b.advertised, Ail, now) + Open(b, candidates)
    ensures forall p :: p in out && out[p] > 0 ==> Rio(p, out[p]) in candidates && !Withdrawn(b, Ail, p)
    ensures Total(LivePrefixes(b.advertised, Ail, now)) <= Budget(Ail) ==> Total(out.Keys) <= Budget(Ail)
    ensures Total(LivePrefixes(b.advertised, Ail, now) + Open(b, candidates)) <= Budget(Ail) ==>
              forall r :: r in candidates && !Withdrawn(b, Ail, r.prefix) ==> r.prefix in out && out[r.prefix] == r.lifetime
  {
    hide Total, Preferred;
    var live := LivePrefixes(b.advertised, Ail, now);
    TotalMonotone(Open(b, candidates), live + Open(b, candidates));
    TotalMonotone(live, live + Open(b, candidates));
    var wanted := Choose(b, candidates);
    desired := wanted;
    var repeated, room := Repeat(live, wanted);
    out := Admit(repeated, wanted, room);
    UniqueFacts(candidates);
  }

  lemma UniqueFacts(rios: seq<Rio>)
    requires Unique(rios)
    ensures forall r, q :: r in rios && q in rios && r.prefix == q.prefix ==> r == q
  {
  }

  function Prefixes(rios: seq<Rio>): set<Prefix> { set r | r in rios :: r.prefix }

  /** Sending can only add live promises for the routes sent, on that link. */
  lemma SentLive(b: Book, e: Event, link: Link, now: nat)
    ensures LivePrefixes(Sent(b, e).advertised, link, now)
            <= LivePrefixes(b.advertised, link, now) + if e.key.link == link then {e.key.prefix} else {}
  {
  }

  lemma SettledLive(b: Book)
    ensures Settled(b).advertised == b.advertised
  {
  }

  lemma LaterLive(advertised: map<Key, Lifetime>, link: Link, now: nat, later: nat)
    requires now <= later
    ensures LivePrefixes(advertised, link, later) <= LivePrefixes(advertised, link, now)
  {
  }

  lemma ReapedLive(b: Book, link: Link, now: nat)
    ensures LivePrefixes(Reaped(b, now).advertised, link, now) == LivePrefixes(b.advertised, link, now)
  {
    var r := Reaped(b, now).advertised;
    forall p | p in LivePrefixes(b.advertised, link, now)
      ensures p in LivePrefixes(r, link, now)
    {
      assert Key(link, p) in r;
    }
  }

  /** Routes with a positive lifetime before and none now. */
  function Lost(prior: map<Prefix, nat>, current: map<Prefix, nat>): set<Prefix>
  {
    set p | p in prior && prior[p] > 0 && !(p in current && current[p] > 0)
  }

  lemma LostExactly(prior: map<Prefix, nat>, current: map<Prefix, nat>)
    ensures forall p :: p in Lost(prior, current) <==> p in prior && prior[p] > 0 && (p in current ==> current[p] == 0)
  {
  }

  /** What is wanted is open, so nothing is cut to zero afterwards, and every promise is there. */
  lemma NothingZeroed(b: Book, candidates: seq<Rio>, live: set<Prefix>, desired: map<Prefix, nat>, out: map<Prefix, nat>)
    requires desired.Keys <= Open(b, candidates) && Budgeted(live, desired, out)
    ensures Zeroed(b, Ail, out) == out && live <= out.Keys
  {
    hide Total, Size;
  }

  class Exports {
    var book: Book
    /** Every option sent so far, the time, and the AIL advertisement that waits for its
        transmission result. */
    ghost var sent: seq<Event>
    ghost var clock: nat
    ghost var queued: Option<set<Prefix>>

    ghost predicate Valid()
      reads this
    {
      Honest(book, sent, clock)
    }

    /** Live AIL promises fit the budget, and the waiting advertisement repeats all of them. */
    ghost predicate Bounded()
      reads this
    {
      && Total(LivePrefixes(book.advertised, Ail, clock)) <= Budget(Ail)
      && (queued.Some? ==> LivePrefixes(book.advertised, Ail, clock) <= queued.value && Total(queued.value) <= Budget(Ail))
    }

    constructor ()
      ensures Valid() && Bounded() && book == Book(map[], map[]) && sent == [] && clock == 0
    {
      book, sent, clock, queued := Book(map[], map[]), [], 0, None;
      new;
      EmptyTotal();
      assert LivePrefixes(book.advertised, Ail, clock) == {};
    }

    /** `reap_exports`. */
    method Reap(now: nat)
      requires Valid() && clock <= now
      modifies this`book, this`clock
      ensures Valid() && clock == now && book == Reaped(old(book), now)
      ensures old(Bounded()) ==> Bounded()
    {
      hide Total, LivePrefixes, Honest;
      LaterIsHonest(book, sent, clock, now);
      ReapKeepsHonest(book, sent, now);
      ReapedLive(book, Ail, now);
      Shrinks(book.advertised, Reaped(book, now).advertised, clock, now);
      book, clock := Reaped(book, now), now;
    }

    /** A withdrawal starts, or starts over. */
    method Withdraw(k: Key)
      requires Valid()
      modifies this`book
      ensures Valid() && book == old(book).(withdrawals := old(book).withdrawals[k := REPEATS])
      ensures old(Bounded()) ==> Bounded()
    {
      hide Total, LivePrefixes, Honest;
      CountersAreFree(book, sent, clock, k);
      book := book.(withdrawals := book.withdrawals[k := REPEATS]);
    }

    /** The route is back before its withdrawal ended. */
    method Cancel(k: Key)
      requires Valid()
      modifies this`book
      ensures Valid() && book == old(book).(withdrawals := old(book).withdrawals - {k})
      ensures old(Bounded()) ==> Bounded()
    {
      hide Total, LivePrefixes, Honest;
      CountersAreFree(book, sent, clock, k);
      book := book.(withdrawals := book.withdrawals - {k});
    }

    /** `reconcile_exports`: what the stub no longer offers is withdrawn. */
    method Reconcile(prior: map<Prefix, nat>, current: map<Prefix, nat>)
      requires Valid()
      modifies this`book
      ensures Valid() && book.advertised == old(book).advertised
      ensures forall p :: p in prior && prior[p] > 0 && (p in current ==> current[p] == 0) ==>
                Key(Stub, p) in book.withdrawals && book.withdrawals[Key(Stub, p)] == 3
      ensures forall k: Key :: !(k.link == Stub && k.prefix in prior && prior[k.prefix] > 0 && (k.prefix in current ==> current[k.prefix] == 0)) ==>
                (k in book.withdrawals <==> k in old(book).withdrawals)
                && (k in book.withdrawals ==> book.withdrawals[k] == old(book).withdrawals[k])
      ensures old(Bounded()) ==> Bounded()
    {
      hide Total, LivePrefixes, Honest, Lost;
      LostExactly(prior, current);
      var todo := Lost(prior, current);
      while todo != {}
        invariant todo <= Lost(prior, current) && Valid() && book.advertised == old(book).advertised
        invariant forall p :: p in Lost(prior, current) - todo ==>
                    Key(Stub, p) in book.withdrawals && book.withdrawals[Key(Stub, p)] == REPEATS
        invariant forall k: Key :: !(k.link == Stub && k.prefix in Lost(prior, current)) ==>
                    (k in book.withdrawals <==> k in old(book).withdrawals)
                    && (k in book.withdrawals ==> book.withdrawals[k] == old(book).withdrawals[k])
        decreases |todo|
      {
        var p :| p in todo;
        Withdraw(Key(Stub, p));
        todo := todo - {p};
      }
    }

    /** The AIL part of `snapshot`. Every promise still owed is in it; it fits the budget; a
        positive lifetime is a candidate's own, and not one being withdrawn; and when all fit,
        every candidate is in. `silent` is a router that is stopping, stopped or degraded. */
    method SnapshotAil(candidates: seq<Rio>, silent: bool, now: nat) returns (out: map<Prefix, nat>, ghost desired: map<Prefix, nat>)
      requires Valid() && clock <= now && Unique(candidates)
      modifies this`clock, this`queued
      ensures Valid() && clock == now && queued == Some(out.Keys)
      ensures forall p :: Owed(sent, Key(Ail, p), now) ==> p in out
      ensures silent ==> out == map p | p in LivePrefixes(book.advertised, Ail, now) :: 0
      ensures !silent ==> Preferred(book, candidates, |candidates|, desired) && Budgeted(LivePrefixes(book.advertised, Ail, now), desired, out)
      ensures forall p :: p in out && out[p] > 0 ==> !silent && Rio(p, out[p]) in candidates && !Withdrawn(book, Ail, p)
      ensures old(Bounded()) ==> Bounded() && 40 + 16 + 8 + 32 + Total(out.Keys) <= 1280
      ensures !silent && Total(LivePrefixes(book.advertised, Ail, now) + Open(book, candidates)) <= Budget(Ail) ==>
                forall r :: r in candidates && !Withdrawn(book, Ail, r.prefix) ==> r.prefix in out && out[r.prefix] == r.lifetime
    {
      hide Total, Open, Honest, Owed, LivePrefixes, Preferred, Budgeted;
      LaterIsHonest(book, sent, clock, now);
      OwedIsLive(book, sent, now);
      Shrinks(book.advertised, book.advertised, clock, now);
      var live := LivePrefixes(book.advertised, Ail, now);
      desired := map[];
      if silent {
        out := map p | p in live :: 0;
        assert out.Keys == live;
      } else {
        var fitting;
        fitting, desired := BudgetAil(book, candidates, now);
        NothingZeroed(book, candidates, LivePrefixes(book.advertised, Ail, now), desired, fitting);
        out := Zeroed(book, Ail, fitting);
        out := map p | p in out.Keys + live :: if p in out then out[p] else 0;
        assert out == fitting;
      }
      clock, queued := now, Some(out.Keys);
    }

    /** The stub part of `snapshot`, from the lifetimes of what is observed on the AIL side. */
    method SnapshotStub(up: bool, observed: map<Prefix, nat>, silent: bool, now: nat) returns (out: map<Prefix, nat>)
      requires Valid() && clock <= now
      modifies this`clock
      ensures Valid() && clock == now
      ensures forall p :: Owed(sent, Key(Stub, p), now) ==> p in out
      ensures old(Bounded()) ==> Bounded()
      ensures silent ==> out == map p | p in LivePrefixes(book.advertised, Stub, now) :: 0
      ensures !silent ==> forall p :: p in out <==> || (up && p in observed) || Withdrawn(book, Stub, p)
                                                    || p in LivePrefixes(book.advertised, Stub, now)
      ensures !silent ==> forall p :: p in out ==> out[p] == if up && p in observed && !Withdrawn(book, Stub, p) then observed[p] else 0
    {
      hide Total, Honest, Owed, LivePrefixes;
      LaterIsHonest(book, sent, clock, now);
      OwedIsLive(book, sent, now);
      Shrinks(book.advertised, book.advertised, clock, now);
      clock := now;
      var live := LivePrefixes(book.advertised, Stub, now);
      if silent {
        return map p | p in live :: 0;
      }
      var leaving := set k | k in book.withdrawals && k.link == Stub :: k.prefix;
      assert forall p :: p in leaving <==> Withdrawn(book, Stub, p);
      var shown := if up then observed else map[];
      out := map p | p in shown.Keys + leaving :: if p in shown then shown[p] else 0;
      out := Zeroed(book, Stub, out);
      out := map p | p in out.Keys + live :: if p in out then out[p] else 0;
    }

    /** The route part of `transmitted`, for one successfully sent advertisement. */
    method Transmitted(link: Link, rios: seq<Rio>, now: nat)
      requires Valid() && clock <= now
      modifies this
      ensures Valid() && clock == now && sent == old(sent) + Events(link, rios, now)
      ensures book == Settled(SentAll(old(book), Events(link, rios, now)))
      ensures old(Bounded()) && (link.Ail? ==> old(queued) == Some(Prefixes(rios))) ==> Bounded()
    {
      hide Total, Honest, LivePrefixes, Sent, Settled;
      SettledLive(SentAll(book, Events(link, rios, now)));
      LaterIsHonest(book, sent, clock, now);
      Shrinks(book.advertised, book.advertised, clock, now);
      clock := now;
      for i := 0 to |rios|
        invariant Honest(book, sent, now) && sent == old(sent) + Events(link, rios[..i], now) && clock == now
        invariant queued == old(queued) && book == SentAll(old(book), Events(link, rios[..i], now))
        invariant LivePrefixes(book.advertised, Ail, now)
                  <= LivePrefixes(old(book).advertised, Ail, now) + if link.Ail? then Prefixes(rios[..i]) else {}
      {
        var e := Event(now, Key(link, rios[i].prefix), rios[i].lifetime);
        SentKeepsHonest(book, sent, e);
        SentLive(book, e, Ail, now);
        assert rios[..i + 1] == rios[..i] + [rios[i]];
        assert Events(link, rios[..i + 1], now) == Events(link, rios[..i], now) + [e];
        SentAllStep(old(book), Events(link, rios[..i], now), e);
        book, sent := Sent(book, e), sent + [e];
      }
      assert rios[..|rios|] == rios;
      if old(Bounded()) && (link.Ail? ==> old(queued) == Some(Prefixes(rios))) {
        TotalMonotone(LivePrefixes(book.advertised, Ail, now), if link.Ail? then Prefixes(rios) else LivePrefixes(old(book).advertised, Ail, now));
      }
      SettleKeepsHonest(book, sent, now);
      book := Settled(book);
      queued := if link.Ail? then None else queued;
    }
  }

  function Events(link: Link, rios: seq<Rio>, now: nat): (h: seq<Event>)
    ensures |h| == |rios|
  {
    seq(|rios|, i requires 0 <= i < |rios| => Event(now, Key(link, rios[i].prefix), rios[i].lifetime))
  }

  /** Options of routes under withdrawal go out with lifetime zero. */
  function Zeroed(b: Book, link: Link, rios: map<Prefix, nat>): map<Prefix, nat>
  {
    map p | p in rios :: if Withdrawn(b, link, p) then 0 else rios[p]
  }

  lemma OwedIsLive(b: Book, h: seq<Event>, now: nat)
    requires Honest(b, h, now)
    ensures forall link, p :: Owed(h, Key(link, p), now) ==> p in LivePrefixes(b.advertised, link, now)
  {
    hide Promise, Zeros;
  }

  /** Fewer or older promises stay within the budget and within what an advertisement repeats. */
  lemma Shrinks(before: map<Key, Lifetime>, after: map<Key, Lifetime>, now: nat, later: nat)
    requires now <= later && LivePrefixes(after, Ail, later) <= LivePrefixes(before, Ail, later)
    ensures LivePrefixes(after, Ail, later) <= LivePrefixes(before, Ail, now)
    ensures Total(LivePrefixes(after, Ail, later)) <= Total(LivePrefixes(before, Ail, now))
  {
    hide Total;
    LaterLive(before, Ail, now, later);
    TotalMonotone(LivePrefixes(after, Ail, later), LivePrefixes(before, Ail, now));
  }
}
