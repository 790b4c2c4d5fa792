/** Fragments of one datagram reassemble to it in any order, whatever else arrives in between. */
module ReassemblyOrder {
  import opened Bytes
  import opened Results
  import opened Checksum
  import opened IpPacket
  import opened IpFragmentBytes
  import opened Reassembly

  /** A datagram cut into `n` chunks. */
  datatype Load = Load(key: Key, header: seq<byte>, payload: seq<byte>, chunk: nat, n: nat)

  predicate LoadOk(l: Load)
  {
    && HeaderOk(l.header) && l.chunk > 0 && l.chunk % 8 == 0 && l.n >= 2
    && IsCount(|l.payload|, l.chunk, l.n)
    && |l.payload| + Overhead(l.header) <= 65535
  }

  /** Chunk `i` lies inside the payload and is full unless it is the last. */
  lemma ChunkBounds(l: Load, i: nat)
    requires LoadOk(l) && i < l.n
    ensures At(i, l.chunk) < |l.payload|
    ensures i + 1 < l.n ==> At(i + 1, l.chunk) == At(i, l.chunk) + l.chunk < |l.payload|
    ensures i + 1 == l.n ==> |l.payload| <= At(i, l.chunk) + l.chunk
  {
    hide At;
    AtSteps(i, l.chunk);
    AtMonotone(i + 1, l.n, l.chunk);
    AtSteps(l.n - 1, l.chunk);
    if i + 1 < l.n { AtMonotone(i + 1, l.n - 1, l.chunk); }
  }

  function PartAt(l: Load, i: nat): (p: Part)
    requires LoadOk(l) && i < l.n
    ensures p.at == At(i, l.chunk) && p.data != [] && p.End() <= |l.payload|
    ensures i + 1 < l.n ==> p.End() == At(i + 1, l.chunk)
    ensures i + 1 == l.n ==> p.End() == |l.payload|
    ensures i + 1 < l.n ==> |p.data| == l.chunk
  {
    ChunkBounds(l, i);
    Part(At(i, l.chunk), Chunk(l.payload, l.chunk, i))
  }

  function Frag(l: Load, i: nat): (f: Fragment)
    requires LoadOk(l) && i < l.n
    ensures f.offset + |f.payload| <= |l.payload|
  {
    var p := PartAt(l, i);
    Fragment(l.key, l.header, p.at, p.End() < |l.payload|, p.data)
  }

  // ---------------------------------------------------------------- which parts are held

  /** The parts of the chunks in `s` below `m`, in order. */
  function Filter(l: Load, s: set<nat>, m: nat): (r: seq<Part>)
    requires LoadOk(l) && m <= l.n
    decreases m
  {
    if m == 0 then [] else Filter(l, s, m - 1) + if m - 1 in s then [PartAt(l, m - 1)] else []
  }

  lemma {:induction false} FilterMember(l: Load, s: set<nat>, m: nat, q: Part) returns (i: nat)
    requires LoadOk(l) && m <= l.n && q in Filter(l, s, m)
    ensures i < m && i in s && q == PartAt(l, i)
    decreases m
  {
    if m - 1 in s && q == PartAt(l, m - 1) {
      i := m - 1;
    } else {
      i := FilterMember(l, s, m - 1, q);
    }
  }

  lemma {:induction false} FilterIgnores(l: Load, s: set<nat>, k: nat, m: nat)
    requires LoadOk(l) && m <= k && m <= l.n
    ensures Filter(l, s + {k}, m) == Filter(l, s, m)
    decreases m
  {
    if m > 0 { FilterIgnores(l, s, k, m - 1); }
  }

  lemma {:induction false} InsertBeforeLast(a: seq<Part>, q: Part, p: Part)
    requires p.at < q.at
    ensures Insert(a + [q], p) == Insert(a, p) + [q]
    decreases |a|
  {
    if a == [] {
      assert a + [q] == [q];
    } else if p.at < a[0].at {
    } else {
      InsertBeforeLast(a[1..], q, p);
      assert (a + [q])[1..] == a[1..] + [q];
    }
  }

  lemma {:induction false} InsertLast(a: seq<Part>, p: Part)
    requires forall q :: q in a ==> q.at <= p.at
    ensures Insert(a, p) == a + [p]
    decreases |a|
  {
    if a != [] {
      assert a[0] in a;
      InsertLast(a[1..], p);
    }
  }

  /** Inserting a missing chunk's part yields the parts of the larger set. */
  lemma {:induction false} InsertFilter(l: Load, s: set<nat>, k: nat, m: nat)
    requires LoadOk(l) && k < m <= l.n && k !in s
    ensures Insert(Filter(l, s, m), PartAt(l, k)) == Filter(l, s + {k}, m)
    decreases m
  {
    hide At;
    if k == m - 1 {
      forall q | q in Filter(l, s, m)
        ensures q.at <= PartAt(l, k).at
      {
        var i := FilterMember(l, s, m, q);
        AtMonotone(i, k, l.chunk);
      }
      InsertLast(Filter(l, s, m), PartAt(l, k));
      FilterIgnores(l, s, k, m - 1);
    } else {
      InsertFilter(l, s, k, m - 1);
      if m - 1 in s {
        ChunkBounds(l, k);
        AtMonotone(k + 1, m - 1, l.chunk);
        InsertBeforeLast(Filter(l, s, m - 1), PartAt(l, m - 1), PartAt(l, k));
      } else {
        assert Filter(l, s, m) == Filter(l, s, m - 1);
      }
    }
  }

  lemma {:induction false} RunAppend(a: seq<Part>, p: Part, next: nat)
    ensures Run(a + [p], next)
            == if Run(a, next).None? || Run(a, next).value != p.at then None else Some(p.End())
    decreases |a|
  {
    if a == [] {
      assert a + [p] == [p];
    } else {
      assert (a + [p])[1..] == a[1..] + [p];
      if a[0].at == next { RunAppend(a[1..], p, next + |a[0].data|); }
    }
  }

  lemma {:induction false} DataAppend(a: seq<Part>, p: Part)
    ensures Data(a + [p]) == Data(a) + p.data
    decreases |a|
  {
    if a == [] {
      assert a + [p] == [p];
    } else {
      assert (a + [p])[1..] == a[1..] + [p];
      DataAppend(a[1..], p);
      Assoc(a[0].data, Data(a[1..]), p.data);
    }
  }

  predicate Full(s: set<nat>, m: nat) { forall i :: 0 <= i < m ==> i in s }

  /** A complete set of chunks runs to the end and concatenates to the payload. */
  lemma {:induction false} FullRun(l: Load, s: set<nat>, m: nat)
    requires LoadOk(l) && m <= l.n && Full(s, m)
    ensures Min(At(m, l.chunk), |l.payload|) >= 0
    ensures Run(Filter(l, s, m), 0) == Some(Min(At(m, l.chunk), |l.payload|))
    ensures Data(Filter(l, s, m)) == l.payload[..Min(At(m, l.chunk), |l.payload|)]
    decreases m
  {
    hide At;
    AtSteps(0, l.chunk);
    if m > 0 {
      FullRun(l, s, m - 1);
      ChunkBounds(l, m - 1);
      AtSteps(m - 1, l.chunk);
      var p := PartAt(l, m - 1);
      RunAppend(Filter(l, s, m - 1), p, 0);
      DataAppend(Filter(l, s, m - 1), p);
      assert l.payload[..p.at] + p.data == l.payload[..p.End()];
    }
  }

  /** If a chunk below a held one is missing, the run is broken. */
  lemma {:induction false} GapRun(l: Load, s: set<nat>, m: nat)
    requires LoadOk(l) && 0 < m <= l.n && m - 1 in s && !Full(s, m)
    ensures Run(Filter(l, s, m), 0).None?
    decreases m
  {
    hide At;
    RunAppend(Filter(l, s, m - 1), PartAt(l, m - 1), 0);
    RunBelow(l, s, m - 1);
  }

  /** With a chunk missing, a run stops short of the next offset. */
  lemma {:induction false} RunBelow(l: Load, s: set<nat>, m: nat)
    requires LoadOk(l) && m < l.n && !Full(s, m)
    ensures Run(Filter(l, s, m), 0).None? || Run(Filter(l, s, m), 0).value < At(m, l.chunk)
    decreases m
  {
    hide At;
    AtSteps(m - 1, l.chunk);
    if m - 1 in s {
      assert !Full(s, m - 1);
      RunAppend(Filter(l, s, m - 1), PartAt(l, m - 1), 0);
      RunBelow(l, s, m - 1);
    } else {
      assert Filter(l, s, m) == Filter(l, s, m - 1);
      if Full(s, m - 1) { FullRun(l, s, m - 1); } else { RunBelow(l, s, m - 1); }
    }
  }

  // ---------------------------------------------------------------- one fragment

  function Progress(l: Load, s: set<nat>, deadline: nat): Context
    requires LoadOk(l)
  {
    Context(l.header, Filter(l, s, l.n), if l.n - 1 in s then Some(|l.payload|) else None, deadline)
  }

  /** The table has collected exactly the chunks in `s`. */
  predicate Holding(t: Table, l: Load, s: set<nat>, deadline: nat)
    requires LoadOk(l)
  {
    if s == {} then l.key !in t else l.key in t && t[l.key] == Progress(l, s, deadline)
  }

  lemma NoConflict(l: Load, s: set<nat>, k: nat, deadline: nat)
    requires LoadOk(l) && k < l.n && k !in s
    ensures !Conflict(Progress(l, s, deadline), Frag(l, k)) && !Malformed(Frag(l, k))
  {
    hide At;
    var f := Frag(l, k);
    ChunkBounds(l, k);
    forall q | q in Filter(l, s, l.n)
      ensures (q.End() <= f.offset || f.offset + |f.payload| <= q.at) && q.End() <= |l.payload|
    {
      var i := FilterMember(l, s, l.n, q);
      ChunkBounds(l, i);
      if i < k { AtMonotone(i + 1, k, l.chunk); } else { AtMonotone(k + 1, i, l.chunk); }
    }
  }

  lemma FilterEmpty(l: Load, m: nat)
    requires LoadOk(l) && m <= l.n
    ensures Filter(l, {}, m) == []
    decreases m
  {
    if m > 0 { FilterEmpty(l, m - 1); }
  }

  /** Adding chunk `k` extends the collection by it. */
  lemma Extends(t: Table, l: Load, s: set<nat>, k: nat, now: nat, deadline: nat)
    requires LoadOk(l) && k < l.n && k !in s && Holding(t, l, s, deadline)
    ensures var d := if s == {} then SatAdd(now, TIMEOUT) else deadline;
            Extended(Entry(t, Frag(l, k), now), Frag(l, k)) == Progress(l, s + {k}, d)
  {
    hide At, Filter, Insert;
    FilterEmpty(l, l.n);
    InsertFilter(l, s, k, l.n);
    ChunkBounds(l, k);
  }

  lemma Finishes(l: Load, s: set<nat>, deadline: nat)
    requires LoadOk(l)
    ensures Finished(Progress(l, s, deadline)) <==> Full(s, l.n)
    ensures Full(s, l.n) ==> Data(Filter(l, s, l.n)) == l.payload
  {
    hide At, Filter, Run, Data;
    if Full(s, l.n) {
      assert l.n - 1 in s;
      FullRun(l, s, l.n);
      assert l.payload[..|l.payload|] == l.payload;
    } else if l.n - 1 in s {
      GapRun(l, s, l.n);
    }
  }

  /** What the reassembler owes the receiver once all chunks are in. */
  function Whole(l: Load): Result<Option<Datagram>, Error>
    requires LoadOk(l)
  {
    Deliver(l.header, l.payload, l.key.id)
  }

  lemma FeedOne(t: Table, l: Load, s: set<nat>, k: nat, now: nat, deadline: nat)
    requires LoadOk(l) && TableOk(t) && k < l.n && k !in s && Holding(t, l, s, deadline)
    requires InputFragment(t, Frag(l, k), now).1 != Err(Capacity)
    ensures var (u, r) := InputFragment(t, Frag(l, k), now);
            var d := if s == {} then SatAdd(now, TIMEOUT) else deadline;
            if Full(s + {k}, l.n) then r == Whole(l) && l.key !in u
            else r == Ok(None) && Holding(u, l, s + {k}, d)
  {
    hide Conflict, Malformed, Finished, Extended, Filter, Refused, Data, At, Complete, Retained;
    NoConflict(l, s, k, deadline);
    ChunkBounds(l, k);
    Extends(t, l, s, k, now, deadline);
    var d := if s == {} then SatAdd(now, TIMEOUT) else deadline;
    Finishes(l, s + {k}, d);
    AtSteps(0, l.chunk);
    NotAtomic(l, k);
  }

  lemma NotAtomic(l: Load, k: nat)
    requires LoadOk(l) && k < l.n
    ensures Frag(l, k).offset != 0 || Frag(l, k).more
    ensures Frag(l, k).more <==> k + 1 < l.n
  {
    hide At;
    ChunkBounds(l, k);
    if k > 0 {
      AtMonotone(1, k, l.chunk);
      AtSteps(0, l.chunk);
    }
  }

  // ---------------------------------------------------------------- any order, any other traffic

  /** One packet arriving: a fragment of the datagram, or anything that is not one. */
  datatype Event = Own(i: nat) | Other(b: seq<byte>, scope: byte)

  function Owns(events: seq<Event>): (s: set<nat>)
  {
    if events == [] then {}
    else (if events[0].Own? then {events[0].i} else {}) + Owns(events[1..])
  }

  /** Every fragment arrives once. */
  predicate Once(events: seq<Event>)
  {
    events != [] ==> (events[0].Own? ==> events[0].i !in Owns(events[1..])) && Once(events[1..])
  }

  predicate Foreign(e: Event, key: Key)
  {
    e.Other? ==>
      var r := ParseFragment(e.b);
      r.Ok? && r.value.Some? ==> r.value.value.key.(scope := e.scope) != key
  }

  /** `pieces` are the packets that carry the chunks. */
  predicate Carries(pieces: seq<seq<byte>>, l: Load)
    requires LoadOk(l)
  {
    && |pieces| == l.n
    && forall i :: 0 <= i < l.n ==>
         ParseFragment(pieces[i]) == Ok(Some(Frag(l, i).(key := l.key.(scope := 0))))
  }

  ghost function Arrive(t: Table, pieces: seq<seq<byte>>, scope: byte, e: Event, now: nat): (Table, Result<Option<Datagram>, Error>)
    requires TableOk(t) && (e.Own? ==> e.i < |pieces|)
  {
    if e.Own? then Input(t, pieces[e.i], now, scope) else Input(t, e.b, now, e.scope)
  }

  /** The results of feeding all events, in order. */
  ghost function Feed(t: Table, pieces: seq<seq<byte>>, scope: byte, events: seq<Event>, times: seq<nat>): (rs: seq<Result<Option<Datagram>, Error>>)
    requires TableOk(t) && |times| == |events|
    requires forall i :: i in Owns(events) ==> i < |pieces|
    ensures |rs| == |events|
    decreases |events|
  {
    if events == [] then []
    else
      assert (events[0].Own? ==> events[0].i in Owns(events)) && Owns(events[1..]) <= Owns(events);
      var (u, r) := Arrive(t, pieces, scope, events[0], times[0]);
      InputKeepsOk(t, if events[0].Own? then pieces[events[0].i] else events[0].b, times[0],
                   if events[0].Own? then scope else events[0].scope);
      [r] + Feed(u, pieces, scope, events[1..], times[1..])
  }

  /** Nothing comes out until the last fragment, and then the whole datagram. */
  predicate Outcome(l: Load, events: seq<Event>, rs: seq<Result<Option<Datagram>, Error>>)
    requires LoadOk(l) && |rs| == |events|
  {
    events != [] ==>
      && (events[0].Own? ==> rs[0] == if Owns(events[1..]) == {} then Whole(l) else Ok(None))
      && Outcome(l, events[1..], rs[1..])
  }

  /** No fragment of the datagram was refused for lack of room. */
  predicate NeverRefused(events: seq<Event>, rs: seq<Result<Option<Datagram>, Error>>)
    requires |rs| == |events|
  {
    forall j :: 0 <= j < |events| && events[j].Own? ==> rs[j] != Err(Capacity)
  }

  predicate During(times: seq<nat>, lo: nat) { forall j :: 0 <= j < |times| ==> lo <= times[j] < SatAdd(lo, TIMEOUT) }

  lemma OwnArrives(t: Table, l: Load, pieces: seq<seq<byte>>, s: set<nat>, k: nat, now: nat, deadline: nat)
    requires LoadOk(l) && TableOk(t) && Carries(pieces, l) && k < l.n && k !in s && Holding(t, l, s, deadline)
    requires s != {} ==> now < deadline
    requires Input(t, pieces[k], now, l.key.scope).1 != Err(Capacity)
    ensures var (u, r) := Input(t, pieces[k], now, l.key.scope);
            var d := if s == {} then SatAdd(now, TIMEOUT) else deadline;
            if Full(s + {k}, l.n) then r == Whole(l) else r == Ok(None) && Holding(u, l, s + {k}, d)
  {
    hide ParseFragment, InputFragment, Retained, Filter, At, Frag, Complete;
    LiveKeepsOk(t, now);
    var f := Frag(l, k).(key := l.key.(scope := 0));
    FragKey(l, k);
    assert f.(key := f.key.(scope := l.key.scope)) == Frag(l, k);
    FeedOne(Live(t, now), l, s, k, now, deadline);
  }

  lemma FragKey(l: Load, k: nat)
    requires LoadOk(l) && k < l.n
    ensures Frag(l, k).key == l.key
  {
  }

  lemma OtherArrives(t: Table, l: Load, s: set<nat>, e: Event, now: nat, deadline: nat)
    requires LoadOk(l) && TableOk(t) && Holding(t, l, s, deadline) && e.Other? && Foreign(e, l.key)
    requires s != {} ==> now < deadline
    ensures Holding(Input(t, e.b, now, e.scope).0, l, s, deadline)
  {
    hide ParseFragment, InputFragment, Retained, Filter;
    LiveKeepsOk(t, now);
    ParsedHeader(e.b);
    var r := ParseFragment(e.b);
    if r.Ok? && r.value.Some? {
      var f := r.value.value;
      InputFragmentFrame(Live(t, now), f.(key := f.key.(scope := e.scope)), now, l.key);
    }
  }

  lemma {:induction false} OthersOnly(l: Load, events: seq<Event>, rs: seq<Result<Option<Datagram>, Error>>)
    requires LoadOk(l) && |rs| == |events| && Owns(events) == {}
    ensures Outcome(l, events, rs)
  {
    if events != [] { OthersOnly(l, events[1..], rs[1..]); }
  }

  /** The chunks still to come, in any order and mixed with any other packets, complete the datagram. */
  lemma {:induction false} AnyOrder(t: Table, l: Load, pieces: seq<seq<byte>>, events: seq<Event>, times: seq<nat>,
                                    s: set<nat>, deadline: nat, lo: nat)
    requires LoadOk(l) && TableOk(t) && Carries(pieces, l) && |times| == |events| && During(times, lo)
    requires Holding(t, l, s, deadline) && (s != {} ==> SatAdd(lo, TIMEOUT) <= deadline)
    requires Once(events) && forall j :: 0 <= j < |events| ==> Foreign(events[j], l.key)
    requires forall i :: i in s || i in Owns(events) <==> 0 <= i < l.n
    requires s !! Owns(events)
    requires NeverRefused(events, Feed(t, pieces, l.key.scope, events, times))
    ensures Outcome(l, events, Feed(t, pieces, l.key.scope, events, times))
    decreases |events|
  {
    hide Holding, Input, Retained, LoadOk, TableOk, Foreign;
    assert |pieces| == l.n;
    if events != [] {
      var e, now := events[0], times[0];
      assert (e.Own? ==> e.i in Owns(events) && e.i < l.n) && Owns(events[1..]) <= Owns(events);
      var rs := Feed(t, pieces, l.key.scope, events, times);
      var (u, r) := Arrive(t, pieces, l.key.scope, e, now);
      InputKeepsOk(t, if e.Own? then pieces[e.i] else e.b, now, if e.Own? then l.key.scope else e.scope);
      assert rs[0] == r && rs[1..] == Feed(u, pieces, l.key.scope, events[1..], times[1..]);
      assert During(times[1..], lo) && NeverRefused(events[1..], rs[1..]);
      if e.Other? {
        OtherArrives(t, l, s, e, now, deadline);
        AnyOrder(u, l, pieces, events[1..], times[1..], s, deadline, lo);
      } else {
        OwnArrives(t, l, pieces, s, e.i, now, deadline);
        var d := if s == {} then SatAdd(now, TIMEOUT) else deadline;
        assert Full(s + {e.i}, l.n) <==> Owns(events[1..]) == {};
        if Owns(events[1..]) == {} {
          OthersOnly(l, events[1..], rs[1..]);
        } else {
          AnyOrder(u, l, pieces, events[1..], times[1..], s + {e.i}, d, lo);
        }
      }
    }
  }

  // ---------------------------------------------------------------- enough room

  /** Room for this datagram beside everything else the table holds. */
  ghost predicate Room(t: Table, l: Load)
  {
    && |t - {l.key}| < MAX_CONTEXTS
    && Retained(t - {l.key}) + 128 + |l.header| + |l.payload| + 128 * l.n <= CAP
  }

  lemma {:induction false} PartBytesAppend(a: seq<Part>, p: Part)
    ensures PartBytes(a + [p]) == PartBytes(a) + |p.data| + 128
    decreases |a|
  {
    if a == [] {
      assert a + [p] == [p];
    } else {
      assert (a + [p])[1..] == a[1..] + [p];
      PartBytesAppend(a[1..], p);
    }
  }

  lemma {:induction false} FilterBytes(l: Load, s: set<nat>, m: nat)
    requires LoadOk(l) && m <= l.n
    ensures PartBytes(Filter(l, s, m)) <= Min(At(m, l.chunk), |l.payload|) + 128 * m
    decreases m
  {
    hide At;
    AtSteps(0, l.chunk);
    if m > 0 {
      FilterBytes(l, s, m - 1);
      ChunkBounds(l, m - 1);
      AtSteps(m - 1, l.chunk);
      if m - 1 in s {
        PartBytesAppend(Filter(l, s, m - 1), PartAt(l, m - 1));
      } else {
        assert Filter(l, s, m) == Filter(l, s, m - 1);
      }
    }
  }

  lemma NotRefused(t: Table, l: Load, s: set<nat>, k: nat, deadline: nat)
    requires LoadOk(l) && k < l.n && k !in s && Holding(t, l, s, deadline) && Room(t, l)
    ensures !Refused(t, Frag(l, k))
  {
    hide At, Retained, Filter, PartBytes;
    FilterBytes(l, s + {k}, l.n);
    InsertFilter(l, s, k, l.n);
    InsertMembers(Filter(l, s, l.n), PartAt(l, k));
    FilterEmpty(l, l.n);
    if l.key in t {
      RetainedSplit(t, l.key);
      assert t == (t - {l.key})[l.key := t[l.key]];
    } else {
      assert t - {l.key} == t;
      EmptyParts();
    }
  }

  lemma EmptyParts()
    ensures PartBytes([]) == 0
  {
  }

  /** Only a full table answers with `Capacity`. */
  lemma CapacityMeansRefused(t: Table, f: Fragment, now: nat)
    requires HeaderOk(f.header) && (forall k :: k in t ==> HeaderOk(t[k].header)) && !Refused(t, f)
    ensures InputFragment(t, f, now).1 != Err(Capacity)
  {
    hide Conflict, Finished, Malformed, Refused, Extended;
  }

  lemma RoomStays(t: Table, u: Table, l: Load)
    requires Room(t, l) && (u - {l.key}).Keys <= (t - {l.key}).Keys
    requires forall k :: k in u && k != l.key ==> k in t && u[k] == t[k]
    ensures Room(u, l)
  {
    RetainedMonotone(t - {l.key}, u - {l.key});
  }

  /** A fragment changes no context but its own, and drops only expired ones. */
  lemma OwnKeepsRoom(t: Table, l: Load, pieces: seq<seq<byte>>, s: set<nat>, k: nat, now: nat, deadline: nat)
    requires LoadOk(l) && TableOk(t) && Carries(pieces, l) && k < l.n && k !in s && Holding(t, l, s, deadline)
    requires (s != {} ==> now < deadline) && Room(t, l)
    ensures Input(t, pieces[k], now, l.key.scope).1 != Err(Capacity)
    ensures Room(Input(t, pieces[k], now, l.key.scope).0, l)
  {
    hide ParseFragment, InputFragment, Retained, Filter, At, Frag, Refused;
    var live := Live(t, now);
    LiveKeepsOk(t, now);
    RoomStays(t, live, l);
    FragKey(l, k);
    NotRefused(live, l, s, k, deadline);
    FragHeader(l, k);
    CapacityMeansRefused(live, Frag(l, k), now);
    var f := Frag(l, k).(key := l.key.(scope := 0));
    assert f.(key := f.key.(scope := l.key.scope)) == Frag(l, k);
    var u := InputFragment(live, Frag(l, k), now).0;
    forall j | j != l.key
      ensures (j in u <==> j in live) && (j in live ==> u[j] == live[j])
    {
      InputFragmentFrame(live, Frag(l, k), now, j);
    }
    RoomStays(live, u, l);
  }

  lemma FragHeader(l: Load, k: nat)
    requires LoadOk(l) && k < l.n
    ensures HeaderOk(Frag(l, k).header)
  {
  }

  /** The first of a run of own fragments, and the rest. */
  lemma FeedStep(t: Table, pieces: seq<seq<byte>>, scope: byte, events: seq<Event>, times: seq<nat>)
    requires TableOk(t) && |times| == |events| && events != [] && events[0].Own?
    requires forall i :: i in Owns(events) ==> i < |pieces|
    ensures events[0].i in Owns(events) && Owns(events[1..]) <= Owns(events)
    ensures var (u, r) := Arrive(t, pieces, scope, events[0], times[0]);
            var rs := Feed(t, pieces, scope, events, times);
            TableOk(u) && rs[0] == r && rs[1..] == Feed(u, pieces, scope, events[1..], times[1..])
  {
    hide Input, TableOk;
    assert events[0].i in Owns(events) && Owns(events[1..]) <= Owns(events);
    InputKeepsOk(t, pieces[events[0].i], times[0], scope);
  }

  lemma CarriesAll(pieces: seq<seq<byte>>, l: Load)
    requires LoadOk(l) && Carries(pieces, l)
    ensures |pieces| == l.n
  {
  }

  /** With room, and nothing else arriving, no fragment is refused. */
  lemma {:induction false} RoomSuffices(t: Table, l: Load, pieces: seq<seq<byte>>, events: seq<Event>, times: seq<nat>,
                                        s: set<nat>, deadline: nat, lo: nat)
    requires LoadOk(l) && TableOk(t) && Carries(pieces, l) && |times| == |events| && During(times, lo)
    requires Holding(t, l, s, deadline) && (s != {} ==> SatAdd(lo, TIMEOUT) <= deadline) && Room(t, l)
    requires Once(events) && forall j :: 0 <= j < |events| ==> events[j].Own?
    requires forall i :: i in s || i in Owns(events) <==> 0 <= i < l.n
    requires s !! Owns(events)
    ensures NeverRefused(events, Feed(t, pieces, l.key.scope, events, times))
    decreases |events|
  {
    hide Holding, Input, Retained, LoadOk, TableOk, Room, Feed, NeverRefused, Carries;
    CarriesAll(pieces, l);
    if events != [] {
      var e, now := events[0], times[0];
      assert e.i in Owns(events) && e.i < l.n && Owns(events[1..]) <= Owns(events);
      var rs := Feed(t, pieces, l.key.scope, events, times);
      var (u, r) := Arrive(t, pieces, l.key.scope, e, now);
      FeedStep(t, pieces, l.key.scope, events, times);
      assert During(times[1..], lo);
      OwnKeepsRoom(t, l, pieces, s, e.i, now, deadline);
      OwnArrives(t, l, pieces, s, e.i, now, deadline);
      var d := if s == {} then SatAdd(now, TIMEOUT) else deadline;
      assert Full(s + {e.i}, l.n) <==> Owns(events[1..]) == {};
      if Owns(events[1..]) != {} {
        RoomSuffices(u, l, pieces, events[1..], times[1..], s + {e.i}, d, lo);
        NeverRefusedCons(events, rs);
      } else {
        NoEventsLeft(events[1..]);
        NothingRefused(events[1..], rs[1..]);
        NeverRefusedCons(events, rs);
      }
    } else {
      NothingRefused(events, Feed(t, pieces, l.key.scope, events, times));
    }
  }

  lemma NothingRefused(events: seq<Event>, rs: seq<Result<Option<Datagram>, Error>>)
    requires events == [] && rs == []
    ensures NeverRefused(events, rs)
  {
  }

  lemma NeverRefusedCons(events: seq<Event>, rs: seq<Result<Option<Datagram>, Error>>)
    requires events != [] && |rs| == |events| && rs[0] != Err(Capacity) && NeverRefused(events[1..], rs[1..])
    ensures NeverRefused(events, rs)
  {
    assert forall j :: 1 <= j < |events| ==> events[j] == events[1..][j - 1] && rs[j] == rs[1..][j - 1];
  }

  lemma NoEventsLeft(events: seq<Event>)
    requires Owns(events) == {} && forall j :: 0 <= j < |events| ==> events[j].Own?
    ensures events == []
  {
  }

  // ---------------------------------------------------------------- packets

  /** The packet's own length field covers exactly its octets. */
  predicate ExactLength(b: seq<byte>)
  {
    (Version(b) == 6 && |b| >= 40 && |b| == 40 + Word(b, 4)) || (Version(b) == 4 && |b| >= 20 && |b| == Word(b, 2))
  }

  /** What `fragment` returns for a packet over the MTU. */
  predicate CutInto(b: seq<byte>, mtu: nat, id: nat, pieces: seq<seq<byte>>)
    requires Splittable(b, mtu).Some?
  {
    var (headerLen, overhead) := Splittable(b, mtu).value;
    var chunk := (mtu - overhead) / 8 * 8;
    && IsCount(|b| - headerLen, chunk, |pieces|)
    && forall i :: 0 <= i < |pieces| ==>
         At(i, chunk) <= |b| - headerLen && pieces[i] == Piece(b, headerLen, chunk, id, i)
  }

  /** The datagram the pieces of `b` are collected as. */
  function LoadOf(b: seq<byte>, mtu: nat, id: nat, scope: byte, n: nat): (l: Load)
    requires Splittable(b, mtu).Some?
  {
    var (headerLen, overhead) := Splittable(b, mtu).value;
    var chunk := (mtu - overhead) / 8 * 8;
    if headerLen == 40 then Load(Key6(b, id).(scope := scope), Collected6(b), b[40..], chunk, n)
    else Load(Key4(b, id).(scope := scope), Collected4(b, id), b[20..], chunk, n)
  }

  /** What the receiver gets: an IPv6 packet octet for octet; an IPv4 packet with its new
      identification, no flags and a fitting checksum. */
  function Expected(b: seq<byte>, id: nat): Datagram
    requires ExactLength(b)
  {
    if Version(b) == 6 then Datagram(b, Some(id)) else Datagram(Restored4(b, id), Some(id % 65536))
  }

  lemma {:induction false} AtMod8(i: nat, chunk: nat)
    requires chunk % 8 == 0
    ensures At(i, chunk) % 8 == 0
    decreases i
  {
    hide At;
    AtSteps(0, chunk);
    if i > 0 {
      AtMod8(i - 1, chunk);
      AtSteps(i - 1, chunk);
    }
  }

  lemma AtLeastTwo(n: nat, chunk: nat, size: nat)
    requires IsCount(size, chunk, n) && chunk < size
    ensures n >= 2
  {
    hide At;
    AtSteps(0, chunk);
    if n <= 1 { AtMonotone(n, 1, chunk); }
  }

  lemma Splits6(b: seq<byte>, mtu: nat, id: nat, scope: byte, pieces: seq<seq<byte>>)
    requires |b| > mtu && Splittable(b, mtu) == Some((40, 48)) && ExactLength(b) && id < 0x1_0000_0000
    requires CutInto(b, mtu, id, pieces)
    ensures var l := LoadOf(b, mtu, id, scope, |pieces|);
            LoadOk(l) && Carries(pieces, l) && Whole(l) == Ok(Some(Expected(b, id)))
  {
    hide At, ParseFragment, Put16, Envelope, Complete, Piece6, Piece4, Collected6, Parse4, Restored4;
    var l := LoadOf(b, mtu, id, scope, |pieces|);
    AtLeastTwo(|pieces|, l.chunk, |l.payload|);
    Collected6Version(b);
    Completes6(b);
    forall i | 0 <= i < l.n
      ensures ParseFragment(pieces[i]) == Ok(Some(Frag(l, i).(key := l.key.(scope := 0))))
    {
      ChunkBounds(l, i);
      AtMod8(i, l.chunk);
      Piece6Parses(b, At(i, l.chunk), Frag(l, i).more, Chunk(l.payload, l.chunk, i), id);
    }
  }

  lemma Collected6Version(b: seq<byte>)
    requires |b| >= 40 && Version(b) == 6
    ensures HeaderOk(Collected6(b)) && Overhead(Collected6(b)) == 0
  {
    hide Put16;
    Put16At(b[..40], 4, 0, 0);
  }

  lemma First4(b: seq<byte>)
    requires Parse4(b).Some? && Parse4(b).value.headerLen == 20
    ensures |b| >= 20 && b[0] == 69
  {
    hide Internet, OptionsOk;
  }

  lemma Splits4(b: seq<byte>, mtu: nat, id: nat, scope: byte, pieces: seq<seq<byte>>)
    requires |b| > mtu && Splittable(b, mtu) == Some((20, 20)) && ExactLength(b)
    requires CutInto(b, mtu, id, pieces)
    ensures var l := LoadOf(b, mtu, id, scope, |pieces|);
            LoadOk(l) && Carries(pieces, l) && Whole(l) == Ok(Some(Expected(b, id)))
  {
    hide At, ParseFragment, Put16, Envelope, Parse4, Complete, Piece4, Restored4;
    var l := LoadOf(b, mtu, id, scope, |pieces|);
    First4(b);
    AtLeastTwo(|pieces|, l.chunk, |l.payload|);
    Completes4(b, id);
    assert Collected4(b, id)[0] == 69;
    hide Fields4;
    forall i | 0 <= i < l.n
      ensures ParseFragment(pieces[i]) == Ok(Some(Frag(l, i).(key := l.key.(scope := 0))))
    {
      ChunkBounds(l, i);
      NotAtomic(l, i);
      AtMod8(i, l.chunk);
      assert At(i, l.chunk) == 8 * (At(i, l.chunk) / 8);
      Piece4Parses(b, At(i, l.chunk) / 8, Frag(l, i).more, Chunk(l.payload, l.chunk, i), id);
    }
  }

  /** Fragmenting a packet and feeding the fragments to a reassembler that holds nothing for
      their key gives nothing until the last one arrives and then the packet, for every order
      of arrival, whatever other packets arrive in between, as long as all of it happens
      within 60 seconds and no fragment is refused for lack of room. */
  lemma FragmentThenReassemble(b: seq<byte>, mtu: nat, id: nat, pieces: seq<seq<byte>>, scope: byte,
                               t: Table, events: seq<Event>, times: seq<nat>, lo: nat)
    requires |b| > mtu && Splittable(b, mtu).Some? && ExactLength(b) && id < 0x1_0000_0000
    requires CutInto(b, mtu, id, pieces)
    requires var l := LoadOf(b, mtu, id, scope, |pieces|);
             && TableOk(t) && l.key !in t
             && |times| == |events| && During(times, lo)
             && Once(events) && (forall j :: 0 <= j < |events| ==> Foreign(events[j], l.key))
             && (forall i :: i in Owns(events) <==> 0 <= i < |pieces|)
             && NeverRefused(events, Feed(t, pieces, scope, events, times))
    ensures var l := LoadOf(b, mtu, id, scope, |pieces|);
            LoadOk(l) && Whole(l) == Ok(Some(Expected(b, id)))
            && Outcome(l, events, Feed(t, pieces, scope, events, times))
  {
    hide At, Carries, ExactLength, CutInto, Expected, Splittable, Retained, Foreign, Outcome, Once;
    var l := LoadOf(b, mtu, id, scope, |pieces|);
    if Splittable(b, mtu).value.0 == 40 {
      Splits6(b, mtu, id, scope, pieces);
    } else {
      Splits4(b, mtu, id, scope, pieces);
    }
    AnyOrder(t, l, pieces, events, times, {}, 0, lo);
  }

  /** The same with the capacity assumption made on the table before the first fragment: room
      for one more context, for the header and payload, and 128 octets per fragment. */
  lemma FragmentThenReassembleWithRoom(b: seq<byte>, mtu: nat, id: nat, pieces: seq<seq<byte>>, scope: byte,
                                       t: Table, events: seq<Event>, times: seq<nat>, lo: nat)
    requires |b| > mtu && Splittable(b, mtu).Some? && ExactLength(b) && id < 0x1_0000_0000
    requires CutInto(b, mtu, id, pieces)
    requires var l := LoadOf(b, mtu, id, scope, |pieces|);
             && TableOk(t) && l.key !in t && Room(t, l)
             && |times| == |events| && During(times, lo)
             && Once(events) && (forall j :: 0 <= j < |events| ==> events[j].Own?)
             && (forall i :: i in Owns(events) <==> 0 <= i < |pieces|)
    ensures var l := LoadOf(b, mtu, id, scope, |pieces|);
            LoadOk(l) && Whole(l) == Ok(Some(Expected(b, id)))
            && Outcome(l, events, Feed(t, pieces, scope, events, times))
  {
    hide At, Carries, ExactLength, CutInto, Expected, Splittable, Retained, Outcome, Once, Room;
    var l := LoadOf(b, mtu, id, scope, |pieces|);
    if Splittable(b, mtu).value.0 == 40 {
      Splits6(b, mtu, id, scope, pieces);
    } else {
      Splits4(b, mtu, id, scope, pieces);
    }
    RoomSuffices(t, l, pieces, events, times, {}, 0, lo);
    FragmentThenReassemble(b, mtu, id, pieces, scope, t, events, times, lo);
  }
}
