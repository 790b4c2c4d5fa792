/** The bounded, overlap-rejecting reassembler of src/ip_reassembly.rs. */
module Reassembly {
  import opened Bytes
  import opened Results
  import opened Checksum
  import opened IpPacket

  const CAP := 4 * 1024 * 1024
  const MAX_CONTEXTS := 64
  const TIMEOUT := 60000

  datatype Part = Part(at: nat, data: seq<byte>)
  {
    function End(): nat { at + |data| }
  }

  /** A datagram being collected; `parts` is ordered by offset, as the source's ordered map is. */
  datatype Context = Context(header: seq<byte>, parts: seq<Part>, end: Option<nat>, deadline: nat)

  datatype Datagram = Datagram(packet: seq<byte>, fragmentId: Option<nat>)

  type Table = map<Key, Context>

  // ---------------------------------------------------------------- sizes

  function PartBytes(parts: seq<Part>): nat
  {
    if parts == [] then 0 else |parts[0].data| + 128 + PartBytes(parts[1..])
  }

  function ContextBytes(c: Context): nat { 128 + |c.header| + PartBytes(c.parts) }

  ghost function Retained(t: Table): (n: nat)
    decreases |t|
  {
    if t == map[] then 0
    else
      var k :| k in t;
      assert |(t - {k}).Keys| < |t.Keys| by { assert (t - {k}).Keys == t.Keys - {k}; }
      ContextBytes(t[k]) + Retained(t - {k})
  }

  /** Any context may be taken out of the sum first. */
  lemma {:induction false} RetainedSplit(t: Table, k: Key)
    requires k in t
    ensures Retained(t) == ContextBytes(t[k]) + Retained(t - {k})
    decreases |t|
  {
    var j :| j in t && Retained(t) == ContextBytes(t[j]) + Retained(t - {j});
    if j != k {
      assert (t - {j}).Keys == t.Keys - {j} && (t - {k}).Keys == t.Keys - {k};
      RetainedSplit(t - {j}, k);
      RetainedSplit(t - {k}, j);
      assert t - {j} - {k} == t - {k} - {j};
    }
  }

  lemma {:induction false} RetainedMonotone(t: Table, u: Table)
    requires u.Keys <= t.Keys && forall k :: k in u ==> u[k] == t[k]
    ensures Retained(u) <= Retained(t) && |u| <= |t|
    decreases |t|
  {
    if t != map[] {
      var k :| k in t;
      RetainedSplit(t, k);
      assert (t - {k}).Keys == t.Keys - {k};
      if k in u {
        RetainedSplit(u, k);
        assert (u - {k}).Keys == u.Keys - {k};
        RetainedMonotone(t - {k}, u - {k});
      } else {
        RetainedMonotone(t - {k}, u);
      }
    } else {
      assert u == map[];
    }
  }

  // ---------------------------------------------------------------- one context

  predicate Overlaps(parts: seq<Part>, offset: nat, end: nat)
  {
    exists q :: q in parts && offset < q.End() && q.at < end
  }

  predicate Beyond(parts: seq<Part>, end: nat)
  {
    exists q :: q in parts && q.End() > end
  }

  /** Why a fragment destroys the datagram it claims to belong to. */
  predicate Conflict(c: Context, f: Fragment)
  {
    var end := f.offset + |f.payload|;
    || c.header != f.header
    || Overlaps(c.parts, f.offset, end)
    || (c.end.Some? && (end > c.end.value || (!f.more && end != c.end.value)))
    || (!f.more && Beyond(c.parts, end))
  }

  /** Ordered insertion. */
  function Insert(parts: seq<Part>, p: Part): (r: seq<Part>)
    ensures |r| == |parts| + 1
  {
    if parts == [] || p.at < parts[0].at then [p] + parts else [parts[0]] + Insert(parts[1..], p)
  }

  /** Where an unbroken run from `next` through all parts ends, if it is unbroken. */
  function Run(parts: seq<Part>, next: nat): Option<nat>
  {
    if parts == [] then Some(next)
    else if parts[0].at != next then None
    else Run(parts[1..], next + |parts[0].data|)
  }

  function Data(parts: seq<Part>): (d: seq<byte>)
  {
    if parts == [] then [] else parts[0].data + Data(parts[1..])
  }

  predicate Finished(c: Context) { Run(c.parts, 0).Some? && c.end == Run(c.parts, 0) }

  function Extended(c: Context, f: Fragment): Context
  {
    Context(c.header, Insert(c.parts, Part(f.offset, f.payload)),
            if f.more then c.end else Some(f.offset + |f.payload|), c.deadline)
  }

  predicate HeaderOk(header: seq<byte>)
  {
    (Version(header) == 6 && |header| >= 40) || (Version(header) == 4 && |header| >= 20)
  }

  // ---------------------------------------------------------------- the table

  function Live(t: Table, now: nat): (r: Table)
    ensures r.Keys <= t.Keys && forall k :: k in r ==> r[k] == t[k]
  {
    map k | k in t && now < t[k].deadline :: t[k]
  }

  function Overhead(header: seq<byte>): nat
    requires HeaderOk(header)
  {
    if Version(header) == 6 then |header| - 40 else |header|
  }

  predicate Malformed(f: Fragment)
    requires HeaderOk(f.header)
  {
    f.payload == [] || f.offset + |f.payload| + Overhead(f.header) > 65535 || (f.more && |f.payload| % 8 != 0)
  }

  function Deliver(header: seq<byte>, data: seq<byte>, id: nat): Result<Option<Datagram>, Error>
    requires HeaderOk(header)
  {
    var p := Complete(header, data);
    if p.None? then Err(Invalid) else Ok(Some(Datagram(p.value, Some(id))))
  }

  ghost predicate Refused(t: Table, f: Fragment)
  {
    var isNew := f.key !in t;
    || (isNew && |t| >= MAX_CONTEXTS)
    || Retained(t) + |f.payload| + 128 + (if isNew then 128 + |f.header| else 0) > CAP
  }

  function Entry(t: Table, f: Fragment, now: nat): Context
  {
    if f.key in t then t[f.key] else Context(f.header, [], None, SatAdd(now, TIMEOUT))
  }

  /** A fragment meets a table without expired contexts. */
  ghost function InputFragment(t: Table, f: Fragment, now: nat): (Table, Result<Option<Datagram>, Error>)
    requires HeaderOk(f.header) && forall k :: k in t ==> HeaderOk(t[k].header)
  {
    if f.offset == 0 && !f.more then (t, Deliver(f.header, f.payload, f.key.id))
    else if Malformed(f) then (t, Err(Invalid))
    else if f.key in t && Conflict(t[f.key], f) then (t - {f.key}, Err(Invalid))
    else if Refused(t, f) then (t, Err(Capacity))
    else
      var c := Extended(Entry(t, f, now), f);
      if Finished(c) then (t - {f.key}, Deliver(c.header, Data(c.parts), f.key.id)) else (t[f.key := c], Ok(None))
  }

  /** `input_scoped`. */
  ghost function Input(t: Table, b: seq<byte>, now: nat, scope: byte): (Table, Result<Option<Datagram>, Error>)
    requires forall k :: k in t ==> HeaderOk(t[k].header)
  {
    var live := Live(t, now);
    match ParseFragment(b)
    case Err(e) => (live, Err(e))
    case Ok(None) => (live, Ok(Some(Datagram(b, None))))
    case Ok(Some(f)) =>
      ParsedHeader(b);
      InputFragment(live, f.(key := f.key.(scope := scope)), now)
  }

  lemma {:induction false} Walk6Header(b: seq<byte>, at: nat, previous: nat, rounds: nat)
    requires 40 <= |b| && Version(b) == 6 && 40 <= at && 6 <= previous < at <= |b|
    ensures var r := Walk6(b, at, previous, rounds); r.Ok? && r.value.Some? ==> HeaderOk(r.value.value.header)
    decreases rounds
  {
    if rounds > 0 && b[previous] in [0, 43, 60, 51] && at + 2 <= |b| {
      var n := if b[previous] == 51 then (b[at + 1] as int + 2) * 4 else (b[at + 1] as int + 1) * 8;
      if at + n <= |b| { Walk6Header(b, at + n, at, rounds - 1); }
    }
  }

  lemma ParsedHeader(b: seq<byte>)
    ensures var r := ParseFragment(b); r.Ok? && r.value.Some? ==> HeaderOk(r.value.value.header)
  {
    hide Internet;
    if Version(b) == 6 && |b| >= 40 {
      Walk6Header(b, 40, 6, 16);
    }
  }

  // ---------------------------------------------------------------- what every run keeps

  /** Parts are non-empty, ordered and disjoint. */
  predicate Disjoint(parts: seq<Part>)
  {
    parts != [] ==>
      && parts[0].data != []
      && (forall q :: q in parts[1..] ==> parts[0].End() <= q.at)
      && Disjoint(parts[1..])
  }

  predicate ContextOk(c: Context)
  {
    && HeaderOk(c.header) && c.parts != [] && Disjoint(c.parts)
    && (c.end.Some? ==> !Beyond(c.parts, c.end.value))
    && !Finished(c)
  }

  ghost predicate TableOk(t: Table)
  {
    && |t| <= MAX_CONTEXTS && Retained(t) <= CAP
    && forall k :: k in t ==> ContextOk(t[k])
  }

  lemma {:induction false} InsertMembers(parts: seq<Part>, p: Part)
    ensures forall q :: q in Insert(parts, p) <==> q == p || q in parts
    ensures PartBytes(Insert(parts, p)) == PartBytes(parts) + |p.data| + 128
  {
    var r := Insert(parts, p);
    if parts == [] || p.at < parts[0].at {
      assert r[1..] == parts;
    } else {
      InsertMembers(parts[1..], p);
      assert r[1..] == Insert(parts[1..], p);
      assert parts == [parts[0]] + parts[1..] && r == [parts[0]] + r[1..];
    }
  }

  lemma {:induction false} InsertKeepsDisjoint(parts: seq<Part>, p: Part)
    requires Disjoint(parts) && p.data != []
    requires forall q :: q in parts ==> q.End() <= p.at || p.End() <= q.at
    ensures Disjoint(Insert(parts, p))
  {
    var r := Insert(parts, p);
    if parts == [] {
      assert r == [p];
    } else if p.at < parts[0].at {
      assert r[1..] == parts;
      assert parts[0] in parts;
      assert forall q :: q in parts ==> q == parts[0] || q in parts[1..];
    } else {
      assert parts[0] in parts;
      InsertKeepsDisjoint(parts[1..], p);
      InsertMembers(parts[1..], p);
      assert r[1..] == Insert(parts[1..], p);
    }
  }

  lemma ExtendedOk(c: Context, f: Fragment)
    requires HeaderOk(c.header) && Disjoint(c.parts) && (c.end.Some? ==> !Beyond(c.parts, c.end.value))
    requires !Conflict(c, f) && f.payload != []
    ensures var c' := Extended(c, f);
            && c'.parts != [] && Disjoint(c'.parts) && (c'.end.Some? ==> !Beyond(c'.parts, c'.end.value))
            && ContextBytes(c') == ContextBytes(c) + |f.payload| + 128
  {
    var p := Part(f.offset, f.payload);
    InsertKeepsDisjoint(c.parts, p);
    InsertMembers(c.parts, p);
  }

  lemma InputFragmentKeepsOk(t: Table, f: Fragment, now: nat)
    requires TableOk(t) && HeaderOk(f.header)
    ensures TableOk(InputFragment(t, f, now).0)
  {
    hide Retained, Conflict, Finished, Disjoint, Extended, Malformed, Overhead, Deliver;
    RetainedMonotone(t, t - {f.key});
    if (f.offset == 0 && !f.more) || Malformed(f) || (f.key in t && Conflict(t[f.key], f)) || Refused(t, f) {
    } else if !Finished(Extended(Entry(t, f, now), f)) {
      StoreKeepsOk(t, f, now);
    }
  }

  /** Other datagrams are not touched. */
  lemma InputFragmentFrame(t: Table, f: Fragment, now: nat, k: Key)
    requires HeaderOk(f.header) && (forall j :: j in t ==> HeaderOk(t[j].header)) && k != f.key
    ensures var u := InputFragment(t, f, now).0; (k in u <==> k in t) && (k in t ==> u[k] == t[k])
  {
    hide Conflict, Finished, Extended, Malformed, Refused, Deliver;
  }

  /** A fragment that cannot belong to the same datagram as what is there: its header differs, it
      shares an octet with a part, or one of them reaches past the end that the other tells. */
  ghost predicate Clashes(c: Context, f: Fragment)
  {
    || c.header != f.header
    || (exists q, o :: q in c.parts && q.at <= o < q.at + |q.data| && InRange(o, f.offset, |f.payload|))
    || (c.end.Some? && f.offset + |f.payload| > c.end.value)
    || (c.end.Some? && !f.more && f.offset + |f.payload| != c.end.value)
    || (!f.more && exists q :: q in c.parts && q.at + |q.data| > f.offset + |f.payload|)
  }

  ghost predicate InRange(o: int, at: nat, length: nat) { at <= o < at + length }

  lemma {:induction false} PartsAreFull(parts: seq<Part>, q: Part)
    requires Disjoint(parts) && q in parts
    ensures q.data != []
  {
    if q != parts[0] { PartsAreFull(parts[1..], q); }
  }

  lemma ConflictExactly(c: Context, f: Fragment)
    requires Disjoint(c.parts) && f.payload != []
    ensures Conflict(c, f) <==> Clashes(c, f)
  {
    hide Disjoint;
    var end := f.offset + |f.payload|;
    if q :| q in c.parts && f.offset < q.End() && q.at < end {
      PartsAreFull(c.parts, q);
      var o := if q.at <= f.offset then f.offset else q.at;
      assert q.at <= o < q.at + |q.data| && InRange(o, f.offset, |f.payload|);
    }
    if q, o :| q in c.parts && q.at <= o < q.at + |q.data| && InRange(o, f.offset, |f.payload|) {
      assert f.offset < q.End() && q.at < end;
    }
    if q :| q in c.parts && q.at + |q.data| > end {
      assert q.End() > end;
    }
  }

  /** A fragment of its own is malformed if it is empty, past the largest datagram or, before the
      last, not in whole blocks: then it is dropped alone. One that clashes with what is there takes
      all of it along: the datagram is gone and its later fragments begin another. */
  lemma FragmentFate(t: Table, f: Fragment, now: nat)
    requires TableOk(t) && HeaderOk(f.header) && (f.offset != 0 || f.more)
    ensures var good := && f.payload != [] && (f.more ==> |f.payload| % 8 == 0)
                        && f.offset + |f.payload| + |f.header| <= 65535 + if Version(f.header) == 6 then 40 else 0;
            && (!good ==> InputFragment(t, f, now) == (t, Err(Invalid)))
            && (good && f.key in t ==>
                  if Clashes(t[f.key], f) then InputFragment(t, f, now) == (t - {f.key}, Err(Invalid))
                  else var u := InputFragment(t, f, now).0; f.key in u ==> forall q :: q in t[f.key].parts ==> q in u[f.key].parts)
  {
    hide Disjoint, Retained, Conflict, Clashes, Finished, Deliver, Refused;
    if f.payload != [] && f.key in t {
      ConflictExactly(t[f.key], f);
      InsertMembers(t[f.key].parts, Part(f.offset, f.payload));
    }
  }

  lemma StoreKeepsOk(t: Table, f: Fragment, now: nat)
    requires TableOk(t) && HeaderOk(f.header)
    requires !Malformed(f) && !(f.key in t && Conflict(t[f.key], f)) && !Refused(t, f)
    requires !Finished(Extended(Entry(t, f, now), f))
    ensures TableOk(t[f.key := Extended(Entry(t, f, now), f)])
  {
    hide Retained, Conflict, Finished, Disjoint, Extended, Malformed, ContextBytes, ContextOk, HeaderOk;
    NewContextOk(t, f, now);
    PutKeepsOk(t, f.key, Extended(Entry(t, f, now), f));
  }

  lemma PutKeepsOk(t: Table, k: Key, c: Context)
    requires TableOk(t) && ContextOk(c) && (k !in t ==> |t| < MAX_CONTEXTS)
    requires Retained(t) + ContextBytes(c) - (if k in t then ContextBytes(t[k]) else 0) <= CAP
    ensures TableOk(t[k := c])
  {
    hide Retained, ContextBytes, ContextOk;
    var u := t[k := c];
    RetainedSplit(u, k);
    assert u - {k} == t - {k};
    if k in t { RetainedSplit(t, k); } else { assert t - {k} == t; }
    assert u.Keys == t.Keys + {k} && |u| == |u.Keys| && |t| == |t.Keys|;
  }

  lemma NewContextOk(t: Table, f: Fragment, now: nat)
    requires TableOk(t) && HeaderOk(f.header)
    requires !Malformed(f) && !(f.key in t && Conflict(t[f.key], f))
    ensures var e := Entry(t, f, now); var c := Extended(e, f);
            && HeaderOk(c.header) && (!Finished(c) ==> ContextOk(c))
            && ContextBytes(c) == ContextBytes(e) + |f.payload| + 128
            && (f.key !in t ==> ContextBytes(e) == 128 + |f.header|)
  {
    ExtendedOk(Entry(t, f, now), f);
  }

  lemma LiveKeepsOk(t: Table, now: nat)
    requires TableOk(t)
    ensures TableOk(Live(t, now))
  {
    RetainedMonotone(t, Live(t, now));
  }

  /** Every input keeps the table's bounds and the shape of every held datagram. */
  lemma InputKeepsOk(t: Table, b: seq<byte>, now: nat, scope: byte)
    requires TableOk(t)
    ensures TableOk(Input(t, b, now, scope).0)
  {
    hide InputFragment, ParseFragment, Retained;
    LiveKeepsOk(t, now);
    if ParseFragment(b).Ok? && ParseFragment(b).value.Some? {
      var f := ParseFragment(b).value.value;
      ParsedHeader(b);
      InputFragmentKeepsOk(Live(t, now), f.(key := f.key.(scope := scope)), now);
    }
  }

  // ---------------------------------------------------------------- the object

  class Reassembler {
    var contexts: Table

    ghost predicate Valid()
      reads this
    {
      TableOk(contexts)
    }

    constructor ()
      ensures Valid() && contexts == map[]
    {
      contexts := map[];
    }

    method Expire(now: nat)
      requires Valid()
      modifies this
      ensures Valid() && contexts == Live(old(contexts), now)
    {
      LiveKeepsOk(contexts, now);
      contexts := map k | k in contexts && now < contexts[k].deadline :: contexts[k];
    }

    method RetainedBytes() returns (n: nat)
      ensures n == Retained(contexts)
    {
      var rest := contexts;
      n := 0;
      while rest != map[]
        invariant n + Retained(rest) == Retained(contexts)
        decreases |rest|
      {
        var k :| k in rest;
        RetainedSplit(rest, k);
        var size := PartsSize(rest[k].parts);
        n := n + 128 + |rest[k].header| + size;
        assert (rest - {k}).Keys == rest.Keys - {k};
        rest := rest - {k};
      }
    }

    /** Accepts one packet: passes it on, stores it, completes a datagram with it, or drops it. */
    method InputScoped(b: seq<byte>, now: nat, scope: byte) returns (r: Result<Option<Datagram>, Error>)
      requires Valid()
      modifies this
      ensures Valid()
      ensures (contexts, r) == Input(old(contexts), b, now, scope)
    {
      hide ParseFragment, Retained, Disjoint;
      InputKeepsOk(contexts, b, now, scope);
      ParsedHeader(b);
      Expire(now);
      var parsed := ParseFragment(b);
      if parsed.Err? {
        return Err(parsed.error);
      }
      if parsed.value.None? {
        return Ok(Some(Datagram(b, None)));
      }
      var f := parsed.value.value;
      f := f.(key := f.key.(scope := scope));
      r := Accept(f, now);
    }

    method Accept(f: Fragment, now: nat) returns (r: Result<Option<Datagram>, Error>)
      requires Valid() && HeaderOk(f.header)
      modifies this
      ensures Valid()
      ensures (contexts, r) == InputFragment(old(contexts), f, now)
    {
      hide Retained, Disjoint, Run, Data, Complete, Insert;
      InputFragmentKeepsOk(contexts, f, now);
      if f.offset == 0 && !f.more {
        return Deliver(f.header, f.payload, f.key.id);
      }
      var end := f.offset + |f.payload|;
      if f.payload == [] || end + Overhead(f.header) > 65535 || (f.more && |f.payload| % 8 != 0) {
        return Err(Invalid);
      }
      if f.key in contexts {
        var bad := Conflicts(contexts[f.key], f);
        if bad {
          contexts := contexts - {f.key};
          return Err(Invalid);
        }
      }
      var isNew := f.key !in contexts;
      var charge := |f.payload| + 128 + if isNew then 128 + |f.header| else 0;
      var held := RetainedBytes();
      if (isNew && |contexts| >= MAX_CONTEXTS) || held + charge > CAP {
        return Err(Capacity);
      }
      var c := if isNew then Context(f.header, [], None, SatAdd(now, TIMEOUT)) else contexts[f.key];
      if !f.more {
        c := c.(end := Some(end));
      }
      c := c.(parts := Insert(c.parts, Part(f.offset, f.payload)));
      var next := RunEnd(c.parts);
      if next.None? || c.end != next {
        contexts := contexts[f.key := c];
        return Ok(None);
      }
      contexts := contexts - {f.key};
      var data := Gather(c.parts);
      return Deliver(c.header, data, f.key.id);
    }
  }

  // ---------------------------------------------------------------- its loops

  method PartsSize(parts: seq<Part>) returns (n: nat)
    ensures n == PartBytes(parts)
  {
    n := 0;
    var i := 0;
    while i < |parts|
      invariant 0 <= i <= |parts| && n + PartBytes(parts[i..]) == PartBytes(parts)
    {
      assert parts[i..][1..] == parts[i + 1..];
      n := n + |parts[i].data| + 128;
      i := i + 1;
    }
  }

  method Conflicts(c: Context, f: Fragment) returns (bad: bool)
    ensures bad == Conflict(c, f)
  {
    var end := f.offset + |f.payload|;
    if c.header != f.header || (c.end.Some? && (end > c.end.value || (!f.more && end != c.end.value))) {
      return true;
    }
    var i := 0;
    while i < |c.parts|
      invariant 0 <= i <= |c.parts|
      invariant forall q :: q in c.parts[..i] ==> !(f.offset < q.End() && q.at < end)
      invariant forall q :: q in c.parts[..i] ==> f.more || q.End() <= end
    {
      assert c.parts[..i + 1] == c.parts[..i] + [c.parts[i]];
      if (f.offset < c.parts[i].End() && c.parts[i].at < end) || (!f.more && c.parts[i].End() > end) {
        return true;
      }
      i := i + 1;
    }
    assert c.parts[..i] == c.parts;
    return false;
  }

  method RunEnd(parts: seq<Part>) returns (r: Option<nat>)
    ensures r == Run(parts, 0)
  {
    var i, next := 0, 0;
    while i < |parts|
      invariant 0 <= i <= |parts| && 0 <= next
      invariant Run(parts[i..], next) == Run(parts, 0)
    {
      assert parts[i..][1..] == parts[i + 1..];
      if parts[i].at != next {
        return None;
      }
      next := next + |parts[i].data|;
      i := i + 1;
    }
    return Some(next);
  }

  method Gather(parts: seq<Part>) returns (data: seq<byte>)
    ensures data == Data(parts)
  {
    data := [];
    var i := 0;
    while i < |parts|
      invariant 0 <= i <= |parts|
      invariant data + Data(parts[i..]) == Data(parts)
    {
      assert parts[i..][1..] == parts[i + 1..];
      Assoc(data, parts[i].data, Data(parts[i + 1..]));
      data := data + parts[i].data;
      i := i + 1;
    }
  }
}
