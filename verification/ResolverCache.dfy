/** The answer cache of src/dns/resolver.rs: bounded, least recently used out first, TTLs that
    count down and never reach zero while served. */
module ResolverCache {
  import opened Bytes
  import opened Results

  const CACHE_SETS := 1024
  const CACHE_BYTES := 4 * 1024 * 1024

  /** A record of a response: its TTL, and for an SOA record its minimum. */
  datatype Record = Record(ttl: nat, soa: Option<nat>)

  /** A parsed response without its OPT record. `positive` tells that it answers the question. */
  datatype Response = Response(rcode: nat, positive: bool, answers: seq<Record>, authority: seq<Record>, additional: seq<Record>,
                               sets: nat, length: nat)

  datatype Entry = Entry(ttls: seq<nat>, inserted: nat, expires: nat, last: nat, sets: nat, size: nat)

  function Records(m: Response): seq<Record> { m.answers + m.authority + m.additional }

  function Ttls(records: seq<Record>): (r: seq<nat>)
    ensures |r| == |records| && forall i :: 0 <= i < |r| ==> r[i] == records[i].ttl
  {
    seq(|records|, i requires 0 <= i < |records| => records[i].ttl)
  }

  function Least(ttls: seq<nat>): (r: Option<nat>)
    ensures r.None? <==> ttls == []
    ensures r.Some? ==> r.value in ttls && forall i :: 0 <= i < |ttls| ==> r.value <= ttls[i]
  {
    if ttls == [] then None
    else
      match Least(ttls[1..])
      case None => Some(ttls[0])
      case Some(t) => Some(Min(t, ttls[0]))
  }

  /** What the SOA records of a negative answer allow. */
  function Negative(authority: seq<Record>): (r: seq<nat>)
  {
    if authority == [] then []
    else (if authority[0].soa.Some? then [Min(authority[0].ttl, authority[0].soa.value) as nat] else []) + Negative(authority[1..])
  }

  /** How long a response may be kept, in seconds. */
  function Life(m: Response): (r: Option<nat>)
    ensures r.Some? ==> forall i :: 0 <= i < |Records(m)| ==> r.value <= Records(m)[i].ttl
  {
    var all := Least(Ttls(Records(m)));
    var life := if m.rcode == 0 && m.positive then all
                else if m.rcode == 0 || m.rcode == 3 then Least(Negative(m.authority))
                else None;
    if life.None? then None else if all.Some? then Some(Min(all.value, life.value)) else life
  }

  lemma {:induction false} NegativeExactly(authority: seq<Record>, v: nat)
    ensures v in Negative(authority)
            <==> exists i :: 0 <= i < |authority| && authority[i].soa.Some? && v == Min(authority[i].ttl, authority[i].soa.value)
  {
    if authority != [] {
      NegativeExactly(authority[1..], v);
      if v in Negative(authority[1..]) {
        var i :| 0 <= i < |authority[1..]| && authority[1..][i].soa.Some? && v == Min(authority[1..][i].ttl, authority[1..][i].soa.value);
        assert authority[i + 1] == authority[1..][i];
      }
      if i :| 0 <= i < |authority| && authority[i].soa.Some? && v == Min(authority[i].ttl, authority[i].soa.value) {
        assert i == 0 || authority[1..][i - 1] == authority[i];
      }
    }
  }

  /** A response that is kept for its SOA records. */
  predicate IsNegative(m: Response) { (m.rcode == 0 && !m.positive) || m.rcode == 3 }

  /** A response is kept if it is positive and has records, or negative and has an SOA record; and
      then for the least of its TTLs and, if negative, of its SOA minimums. */
  lemma LifeExactly(m: Response)
    ensures Life(m).Some? <==> || (m.rcode == 0 && m.positive && Records(m) != [])
                               || (IsNegative(m) && exists i :: 0 <= i < |m.authority| && m.authority[i].soa.Some?)
    ensures Life(m).Some? ==>
              && (forall i :: 0 <= i < |Records(m)| ==> Life(m).value <= Records(m)[i].ttl)
              && (IsNegative(m) ==> forall i :: 0 <= i < |m.authority| && m.authority[i].soa.Some? ==> Life(m).value <= m.authority[i].soa.value)
              && ((exists i :: 0 <= i < |Records(m)| && Life(m).value == Records(m)[i].ttl)
                  || (IsNegative(m) && exists i :: 0 <= i < |m.authority| && m.authority[i].soa == Some(Life(m).value)))
  {
    hide Negative;
    var negative := Negative(m.authority);
    forall i | 0 <= i < |m.authority| && m.authority[i].soa.Some?
      ensures Min(m.authority[i].ttl, m.authority[i].soa.value) as nat in negative
    {
      NegativeExactly(m.authority, Min(m.authority[i].ttl, m.authority[i].soa.value));
    }
    if Least(negative).Some? {
      var v := Least(negative).value;
      NegativeExactly(m.authority, v);
      var i :| 0 <= i < |m.authority| && m.authority[i].soa.Some? && v == Min(m.authority[i].ttl, m.authority[i].soa.value);
      assert Records(m)[|m.answers| + i] == m.authority[i];
    }
  }

  /** The TTLs as stored: the SOA of a negative answer is cut to its life. */
  function Stored(m: Response, life: nat): (r: seq<nat>)
    ensures |r| == |Records(m)|
  {
    seq(|Records(m)|, i requires 0 <= i < |Records(m)| =>
      var r := Records(m)[i];
      if !m.positive && r.soa.Some? then Min(r.ttl, life) else r.ttl)
  }

  /** An SOA record of a negative answer is kept for the life of the answer, any other record for
      its own TTL. */
  lemma StoredExactly(m: Response, i: nat)
    requires Life(m).Some? && i < |Records(m)|
    ensures Stored(m, Life(m).value)[i] == if !m.positive && Records(m)[i].soa.Some? then Life(m).value else Records(m)[i].ttl
  {
    hide Life;
    LifeExactly(m);
  }

  /** Whole seconds taken off every TTL. */
  function Decayed(ttls: seq<nat>, elapsed: nat): (r: seq<nat>)
    ensures |r| == |ttls|
  {
    seq(|ttls|, i requires 0 <= i < |ttls| => if ttls[i] > elapsed then ttls[i] - elapsed else 0)
  }

  // ---------------------------------------------------------------- totals

  ghost function Sum(m: map<nat, nat>): nat
  {
    if m == map[] then 0 else var k :| k in m; m[k] + Sum(m - {k})
  }

  lemma {:induction false} SumWithout(m: map<nat, nat>, k: nat)
    requires k in m
    ensures Sum(m) == m[k] + Sum(m - {k})
    decreases |m|
  {
    var j :| j in m && Sum(m) == m[j] + Sum(m - {j});
    if j != k {
      Fewer(m, j);
      Fewer(m, k);
      SumWithout(m - {j}, k);
      SumWithout(m - {k}, j);
      assert m - {j} - {k} == m - {k} - {j};
    }
  }

  lemma Fewer<V>(m: map<nat, V>, k: nat)
    requires k in m
    ensures |m - {k}| == |m| - 1
  {
    assert (m - {k}).Keys == m.Keys - {k} && |m| == |m.Keys| && |m - {k}| == |(m - {k}).Keys|;
  }

  function SetsOf(c: map<nat, Entry>): map<nat, nat> { map k | k in c :: c[k].sets }

  function SizesOf(c: map<nat, Entry>): map<nat, nat> { map k | k in c :: c[k].size }

  ghost predicate Bounded(c: map<nat, Entry>) { Sum(SetsOf(c)) <= CACHE_SETS && Sum(SizesOf(c)) <= CACHE_BYTES }

  lemma Removal(c: map<nat, Entry>, k: nat)
    requires k in c
    ensures Sum(SetsOf(c)) == Sum(SetsOf(c - {k})) + c[k].sets && Sum(SizesOf(c)) == Sum(SizesOf(c - {k})) + c[k].size
  {
    SumWithout(SetsOf(c), k);
    SumWithout(SizesOf(c), k);
    assert SetsOf(c) - {k} == SetsOf(c - {k}) && SizesOf(c) - {k} == SizesOf(c - {k});
  }

  lemma Insertion(c: map<nat, Entry>, k: nat, e: Entry)
    requires k !in c
    ensures Sum(SetsOf(c[k := e])) == Sum(SetsOf(c)) + e.sets && Sum(SizesOf(c[k := e])) == Sum(SizesOf(c)) + e.size
  {
    Removal(c[k := e], k);
    assert c[k := e] - {k} == c;
  }

  lemma {:induction false} SubsetIsBounded(c: map<nat, Entry>, d: map<nat, Entry>)
    requires Bounded(c) && d.Keys <= c.Keys && forall k :: k in d ==> d[k].sets == c[k].sets && d[k].size == c[k].size
    ensures Bounded(d)
    decreases |c|
  {
    hide Sum;
    if k :| k in c && k !in d {
      Removal(c, k);
      Fewer(c, k);
      SubsetIsBounded(c - {k}, d);
    } else {
      assert SetsOf(c) == SetsOf(d) && SizesOf(c) == SizesOf(d);
    }
  }

  method Add(m: map<nat, nat>) returns (n: nat)
    ensures n == Sum(m)
  {
    hide Sum;
    n := 0;
    var left := m;
    while left != map[]
      invariant n + Sum(left) == Sum(m)
      decreases |left|
    {
      var k :| k in left;
      SumWithout(left, k);
      Fewer(left, k);
      n := n + left[k];
      left := left - {k};
    }
    NothingToAdd();
  }

  lemma NothingToAdd()
    ensures Sum(map[]) == 0
  {
  }

  // ---------------------------------------------------------------- the cache

  /** An entry ends before any of its TTLs does. */
  ghost predicate Lasting(e: Entry)
  {
    && e.sets >= 1
    && exists life: nat :: life > 0 && e.expires == SatAdd(e.inserted, life * 1000) && forall i :: 0 <= i < |e.ttls| ==> life <= e.ttls[i]
  }

  /** What goes to make room: the least recently used, and no more than needed, so that the last
      one to go would not fit beside what stays. */
  ghost predicate Evicted(before: map<nat, Entry>, after: map<nat, Entry>, sets: nat, size: nat)
  {
    && Sum(SetsOf(after)) + sets <= CACHE_SETS && Sum(SizesOf(after)) + size <= CACHE_BYTES
    && Evicting(before, after, sets, size)
  }

  ghost predicate Evicting(before: map<nat, Entry>, after: map<nat, Entry>, sets: nat, size: nat)
  {
    && after.Keys <= before.Keys && (forall k :: k in after ==> after[k] == before[k])
    && (forall k, j :: k in after && j in before && j !in after ==> before[j].last <= after[k].last)
    && (after == before || exists j :: j in before && j !in after && LastToGo(before, after, sets, size, j))
  }

  ghost predicate LastToGo(before: map<nat, Entry>, after: map<nat, Entry>, sets: nat, size: nat, j: nat)
    requires j in before
  {
    && (Sum(SetsOf(after)) + before[j].sets + sets > CACHE_SETS || Sum(SizesOf(after)) + before[j].size + size > CACHE_BYTES)
    && forall i :: i in before && i !in after ==> before[i].last <= before[j].last
  }

  lemma NoneEvicted(c: map<nat, Entry>, sets: nat, size: nat)
    ensures Evicting(c, c, sets, size)
  {
  }

  lemma EvictOne(before: map<nat, Entry>, after: map<nat, Entry>, sets: nat, size: nat, oldest: nat)
    requires Evicting(before, after, sets, size) && oldest in after && forall k :: k in after ==> after[oldest].last <= after[k].last
    requires Sum(SetsOf(after)) + sets > CACHE_SETS || Sum(SizesOf(after)) + size > CACHE_BYTES
    requires Sum(SetsOf(after)) == Sum(SetsOf(after - {oldest})) + after[oldest].sets
    requires Sum(SizesOf(after)) == Sum(SizesOf(after - {oldest})) + after[oldest].size
    ensures Evicting(before, after - {oldest}, sets, size)
  {
    hide Sum, SetsOf, SizesOf;
    assert LastToGo(before, after - {oldest}, sets, size, oldest);
  }

  class Cache {
    var entries: map<nat, Entry>

    ghost predicate Valid()
      reads this
    {
      Bounded(entries) && forall k :: k in entries ==> Lasting(entries[k])
    }

    constructor ()
      ensures Valid() && entries == map[]
    {
      entries := map[];
      new;
      assert SetsOf(entries) == map[] && SizesOf(entries) == map[];
      NothingToAdd();
    }

    /** `keyLength` is the length of the encoded key. */
    method Store(key: nat, keyLength: nat, m: Response, now: nat)
      requires Valid()
      modifies this
      ensures Valid()
      ensures var size := keyLength + m.length + 128; var sets := if m.sets == 0 then 1 else m.sets;
              if Life(m).Some? && Life(m).value > 0 && sets <= CACHE_SETS && size <= CACHE_BYTES then
                && Evicted(old(entries) - {key}, entries - {key}, sets, size)
                && key in entries && entries[key] == Entry(Stored(m, Life(m).value), now, SatAdd(now, Life(m).value * 1000), now, sets, size)
              else entries == old(entries)
    {
      hide Bounded, Lasting, Life, Stored, LastToGo, Sum;
      var life := Life(m);
      if life.None? || life.value == 0 { return; }
      var sets := if m.sets == 0 then 1 else m.sets;
      var size := keyLength + m.length + 128;
      if sets > CACHE_SETS || size > CACHE_BYTES { return; }
      SubsetIsBounded(entries, entries - {key});
      entries := entries - {key};
      MakeRoom(sets, size);
      var e := Entry(Stored(m, life.value), now, SatAdd(now, life.value * 1000), now, sets, size);
      StoredLasts(m, life.value, e);
      Inserted(entries, key, e);
      assert entries[key := e] - {key} == entries;
      entries := entries[key := e];
    }

    /** Least recently used entries go until the new one fits. */
    method MakeRoom(sets: nat, size: nat)
      requires Valid() && sets <= CACHE_SETS && size <= CACHE_BYTES
      modifies this
      ensures Valid() && Evicted(old(entries), entries, sets, size)
    {
      hide Sum, Lasting, Evicting, Bounded;
      NoneEvicted(entries, sets, size);
      var allSets := Add(SetsOf(entries));
      var allBytes := Add(SizesOf(entries));
      while allSets + sets > CACHE_SETS || allBytes + size > CACHE_BYTES
        invariant Valid() && Evicting(old(entries), entries, sets, size)
        invariant allSets == Sum(SetsOf(entries)) && allBytes == Sum(SizesOf(entries))
        decreases |entries|
      {
        SomethingToDrop(entries);
        var oldest := Oldest(entries);
        Removal(entries, oldest);
        Fewer(entries, oldest);
        EvictOne(old(entries), entries, sets, size, oldest);
        SubsetIsBounded(entries, entries - {oldest});
        allSets, allBytes := allSets - entries[oldest].sets, allBytes - entries[oldest].size;
        entries := entries - {oldest};
      }
    }

    /** A cached answer has every TTL reduced by the whole seconds since it was stored, and none
        of them has reached zero. */
    method Lookup(key: nat, now: nat) returns (r: Option<seq<nat>>)
      requires Valid()
      modifies this
      ensures Valid()
      ensures r.Some? <==> key in old(entries) && old(entries)[key].expires > now
      ensures r.Some? && now >= old(entries)[key].inserted ==>
                && |r.value| == |old(entries)[key].ttls|
                && forall i :: 0 <= i < |r.value| ==>
                     1 <= r.value[i] == old(entries)[key].ttls[i] - (now - old(entries)[key].inserted) / 1000
      ensures r.Some? && now < old(entries)[key].inserted ==> r.value == old(entries)[key].ttls
      ensures forall k :: k in entries <==> k in old(entries) && now < old(entries)[k].expires
      ensures forall k :: k in entries ==> entries[k] == if k == key then old(entries)[k].(last := now) else old(entries)[k]
    {
      hide Bounded, Lasting;
      var live := map k | k in entries && entries[k].expires > now :: entries[k];
      SubsetIsBounded(entries, live);
      entries := live;
      if key !in entries { return None; }
      var e := entries[key];
      SubsetIsBounded(entries, entries[key := e.(last := now)]);
      entries := entries[key := e.(last := now)];
      UsedLasts(e, now);
      StillThere(e, now);
      return Some(Decayed(e.ttls, if now > e.inserted then (now - e.inserted) / 1000 else 0));
    }
  }

  method Oldest(c: map<nat, Entry>) returns (k: nat)
    requires c != map[]
    ensures k in c && forall j :: j in c ==> c[k].last <= c[j].last
  {
    k :| k in c;
    var left := c.Keys - {k};
    while left != {}
      invariant k in c && left <= c.Keys && forall j :: j in c && j !in left ==> c[k].last <= c[j].last
      decreases |left|
    {
      var j :| j in left;
      if c[j].last < c[k].last { k := j; }
      left := left - {j};
    }
  }

  lemma SomethingToDrop(c: map<nat, Entry>)
    ensures c == map[] ==> Sum(SetsOf(c)) == 0 && Sum(SizesOf(c)) == 0
  {
    if c == map[] {
      assert SetsOf(c) == map[] && SizesOf(c) == map[];
    }
  }

  lemma StoredLasts(m: Response, life: nat, e: Entry)
    requires Life(m) == Some(life) && life > 0 && e.ttls == Stored(m, life) && e.sets >= 1 && e.expires == SatAdd(e.inserted, life * 1000)
    ensures Lasting(e)
  {
    assert forall i :: 0 <= i < |e.ttls| ==> life <= e.ttls[i];
  }

  lemma Inserted(c: map<nat, Entry>, k: nat, e: Entry)
    requires k !in c && Sum(SetsOf(c)) + e.sets <= CACHE_SETS && Sum(SizesOf(c)) + e.size <= CACHE_BYTES
    ensures Bounded(c[k := e])
  {
    Insertion(c, k, e);
  }

  lemma UsedLasts(e: Entry, now: nat)
    requires Lasting(e)
    ensures Lasting(e.(last := now))
  {
    var life: nat :| life > 0 && e.expires == SatAdd(e.inserted, life * 1000) && forall i :: 0 <= i < |e.ttls| ==> life <= e.ttls[i];
  }

  lemma StillThere(e: Entry, now: nat)
    requires Lasting(e) && now < e.expires
    ensures now >= e.inserted ==> forall i :: 0 <= i < |e.ttls| ==> e.ttls[i] - (now - e.inserted) / 1000 >= 1
  {
    var life: nat :| life > 0 && e.expires == SatAdd(e.inserted, life * 1000) && forall i :: 0 <= i < |e.ttls| ==> life <= e.ttls[i];
    if now >= e.inserted {
      assert now - e.inserted < life * 1000;
    }
  }
}
