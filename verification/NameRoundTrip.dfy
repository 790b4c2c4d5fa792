/** Every name written through one dictionary is read back, label for label, by one parser. */
module NameRoundTrip {
  import opened Bytes
  import opened DnsName
  import opened Results
  import opened NameCompression
  import opened NameWriter

  /** Pointers per dictionary entry: how many the parser follows from its offset on. */
  type Depths = map<seq<byte>, nat>

  /** Pointers the parser will follow for `n`, as far as the dictionary can tell beforehand. */
  function Hops(d: Suffixes, depth: Depths, n: Name): (h: nat)
    requires Labels(n) && depth.Keys == d.entries.Keys
    decreases |n|
  {
    if n == [] then 0
    else if Wire(n) in d.entries then 1 + depth[Wire(n)]
    else Hops(d, depth, n[1..])
  }

  function Deepen(d: Suffixes, depth: Depths, n: Name, after: Suffixes): (r: Depths)
    requires Labels(n) && depth.Keys == d.entries.Keys
    ensures r.Keys == after.entries.Keys
  {
    map k | k in after.entries :: if k in depth then depth[k] else Hops(d, depth, n)
  }

  /** The entry `key` points to an earlier, known label at which its suffix is spelled. */
  ghost predicate EntrySound(key: seq<byte>, off: nat, hops: nat, b: seq<byte>, known: seq<bool>, at: nat)
    requires |known| == |b|
  {
    exists n: Name ::
      && n != [] && Labels(n) && key == Wire(n)
      && off < at && off < |b| && known[off]
      && hops < |n| && Encodes(b, known, off, n, hops)
  }

  /** The invariant between writer and parser. */
  ghost predicate Sound(d: Suffixes, depth: Depths, b: seq<byte>, known: seq<bool>, at: nat)
  {
    && d.Bounded() && depth.Keys == d.entries.Keys && |known| == |b|
    && forall key :: key in d.entries ==> EntrySound(key, d.entries[key], depth[key], b, known, at)
  }

  lemma {:induction false} WireInjective(a: Name, b: Name)
    requires Labels(a) && Labels(b) && Wire(a) == Wire(b)
    ensures a == b
  {
    if a != [] && b != [] {
      assert Wire(a)[0] == |a[0]| && Wire(b)[0] == |b[0]|;
      assert Wire(a)[1..1 + |a[0]|] == a[0] && Wire(b)[1..1 + |b[0]|] == b[0];
      assert Wire(a)[1 + |a[0]|..] == Wire(a[1..]) && Wire(b)[1 + |b[0]|..] == Wire(b[1..]);
      WireInjective(a[1..], b[1..]);
      assert a == [a[0]] + a[1..] && b == [b[0]] + b[1..];
    } else {
      assert Wire(a)[0] == 0;
    }
  }

  lemma PointerTarget(b: seq<byte>, pos: nat, off: nat)
    requires off < 0x4000 && pos + 2 <= |b| && b[pos..pos + 2] == Pointer(off)
    ensures b[pos] >= 192 && Target(b, pos) == off
  {
    assert b[pos] == Pointer(off)[0] && b[pos + 1] == Pointer(off)[1];
    assert (0xc000 + off) / 256 == 192 + off / 256;
  }

  /** The octets a name contributes when only `d` is consulted. */
  function Text(d: Suffixes, n: Name): (t: seq<byte>)
    requires d.Bounded() && Labels(n)
    decreases |n|
  {
    if n == [] then [0]
    else if Wire(n) in d.entries then Pointer(d.entries[Wire(n)])
    else [|n[0]|] + n[0] + Text(d, n[1..])
  }

  /** Registering a longer suffix does not change how a shorter one is written. */
  lemma {:induction false} TextIgnoresLonger(d: Suffixes, long: Name, off: nat, n: Name)
    requires d.Bounded() && Labels(long) && Labels(n) && |n| < |long|
    ensures d.Add(Wire(long), off).Bounded()
    ensures Text(d.Add(Wire(long), off), n) == Text(d, n)
    decreases |n|
  {
    if n != [] {
      if Wire(long) == Wire(n) { WireInjective(long, n); }
      TextIgnoresLonger(d, long, off, n[1..]);
    }
  }

  /** Within one name the dictionary never points at that name's own suffixes. */
  lemma {:induction false} EmitText(d: Suffixes, n: Name, at: nat)
    requires d.Bounded() && Labels(n) && Emit(d, n, at).ok
    ensures Emit(d, n, at).text == Text(d, n)
    decreases |n|
  {
    if n != [] && Wire(n) !in d.entries {
      EmitText(d.Add(Wire(n), at), n[1..], at + |n[0]| + 1);
      TextIgnoresLonger(d, n, at, n[1..]);
    }
  }

  lemma SpellsPointer(key: seq<byte>, off: nat, hops: nat, n: Name, at: nat, b: seq<byte>, known: seq<bool>, start: nat)
    requires |known| == |b| && EntrySound(key, off, hops, b, known, start) && Labels(n) && key == Wire(n)
    requires start <= at && off < 0x4000 && at + 2 <= |b| && b[at..at + 2] == Pointer(off)
    ensures Encodes(b, known, at, n, hops + 1) && hops + 1 <= |n| && InlineEnd(b, at) == at + 2
  {
    PointerTarget(b, at, off);
    var m: Name :| m != [] && Labels(m) && key == Wire(m) && off < start && off < |b| && known[off]
                   && hops < |m| && Encodes(b, known, off, m, hops);
    WireInjective(n, m);
  }

  /** A label written at `at` and what follows it. */
  lemma LabelText(n: Name, at: nat, b: seq<byte>, tail: seq<byte>)
    requires n != [] && Labels(n)
    requires var text := [|n[0]|] + n[0] + tail; at + |text| <= |b| && b[at..at + |text|] == text
    ensures var next := at + 1 + |n[0]|;
            && b[at] == |n[0]| && b[at + 1..next] == n[0]
            && next + |tail| <= |b| && b[next..next + |tail|] == tail
  {
    var text := [|n[0]|] + n[0] + tail;
    var size := 1 + |n[0]|;
    assert b[at] == b[at..at + |text|][0] == |n[0]|;
    assert b[at + 1..at + size] == text[1..size] == n[0];
    assert b[at + size..at + size + |tail|] == text[size..] == tail;
  }

  lemma EncodesLabel(b: seq<byte>, known: seq<bool>, at: nat, n: Name, h: nat)
    requires |known| == |b| && n != [] && Labels(n) && at + 1 + |n[0]| <= |b|
    requires b[at] == |n[0]| && b[at + 1..at + 1 + |n[0]|] == n[0]
    requires Encodes(b, known, at + 1 + |n[0]|, n[1..], h)
    ensures Encodes(b, known, at, n, h) && InlineEnd(b, at) == InlineEnd(b, at + 1 + |n[0]|)
  {
  }

  /** A freshly written name is spelled where it was written, with the predicted pointers. */
  lemma {:induction false} TextSpells(d: Suffixes, depth: Depths, n: Name, at: nat, b: seq<byte>, known: seq<bool>, start: nat)
    requires Sound(d, depth, b, known, start) && start <= at && Labels(n)
    requires at + |Text(d, n)| <= |b| && b[at..at + |Text(d, n)|] == Text(d, n)
    ensures Encodes(b, known, at, n, Hops(d, depth, n))
    ensures Hops(d, depth, n) <= |n|
    ensures InlineEnd(b, at) == at + |Text(d, n)|
    decreases |n|
  {
    hide Wire, Encodes, InlineEnd, EntrySound, Pointer;
    if n == [] {
      SpellsRoot(at, b, known);
    } else if Wire(n) in d.entries {
      SpellsPointer(Wire(n), d.entries[Wire(n)], depth[Wire(n)], n, at, b, known, start);
    } else {
      LabelText(n, at, b, Text(d, n[1..]));
      TextSpells(d, depth, n[1..], at + |n[0]| + 1, b, known, start);
      EncodesLabel(b, known, at, n, Hops(d, depth, n));
    }
  }

  lemma SpellsRoot(at: nat, b: seq<byte>, known: seq<bool>)
    requires |known| == |b| && at + 1 <= |b| && b[at..at + 1] == [0]
    ensures Encodes(b, known, at, [], 0) && InlineEnd(b, at) == at + 1
  {
    assert b[at] == b[at..at + 1][0];
  }

  /** Entries are never moved. */
  lemma {:induction false} EmitKeepsEntries(d: Suffixes, n: Name, at: nat, key: seq<byte>)
    requires d.Bounded() && Labels(n) && key in d.entries
    ensures key in Emit(d, n, at).dict.entries && Emit(d, n, at).dict.entries[key] == d.entries[key]
    decreases |n|
  {
    if n != [] && Wire(n) !in d.entries && at + |n[0]| + 1 <= MAX_WIRE {
      EmitKeepsEntries(d.Add(Wire(n), at), n[1..], at + |n[0]| + 1, key);
    }
  }

  /** Octets taken by the first `k` labels. */
  function Offset(n: Name, k: nat): nat
    requires k <= |n|
    decreases k
  {
    if k == 0 then 0 else 1 + |n[0]| + Offset(n[1..], k - 1)
  }

  /** None of the suffixes of `n` down to the `k`-th was in the dictionary. */
  predicate Fresh(d: Suffixes, n: Name, k: nat)
    requires Labels(n) && k < |n|
    decreases k
  {
    Wire(n) !in d.entries && (k > 0 ==> Fresh(d, n[1..], k - 1))
  }

  lemma EmitStep(d: Suffixes, n: Name, at: nat)
    requires d.Bounded() && Labels(n)
    ensures n == [] || Wire(n) in d.entries ==> Emit(d, n, at).dict == d
    ensures n != [] && Wire(n) !in d.entries ==>
              Emit(d, n, at).dict == if at + |n[0]| + 1 > MAX_WIRE then d.Add(Wire(n), at)
                                     else Emit(d.Add(Wire(n), at), n[1..], at + |n[0]| + 1).dict
  {
  }

  /** Every entry a name adds is one of its own suffixes, at the offset of that suffix. */
  lemma {:induction false} NewEntry(d: Suffixes, n: Name, at: nat, key: seq<byte>) returns (k: nat)
    requires d.Bounded() && Labels(n) && key in Emit(d, n, at).dict.entries && key !in d.entries
    ensures k < |n| && key == Wire(n[k..]) && Fresh(d, n, k)
    ensures Emit(d, n, at).dict.entries[key] == at + Offset(n, k)
    decreases |n|
  {
    hide Wire, Emit;
    EmitStep(d, n, at);
    var d' := d.Add(Wire(n), at);
    assert n[0..] == n;
    if key in d'.entries {
      k := 0;
      if at + |n[0]| + 1 <= MAX_WIRE {
        EmitKeepsEntries(d', n[1..], at + |n[0]| + 1, key);
      }
    } else {
      var j := NewEntry(d', n[1..], at + |n[0]| + 1, key);
      k := j + 1;
      assert n[1..][j..] == n[k..];
      FreshShrinks(d, d', n[1..], j);
    }
  }

  lemma {:induction false} FreshShrinks(d: Suffixes, d': Suffixes, n: Name, k: nat)
    requires Labels(n) && k < |n| && Fresh(d', n, k) && d.entries.Keys <= d'.entries.Keys
    ensures Fresh(d, n, k)
    decreases k
  {
    if k > 0 { FreshShrinks(d, d', n[1..], k - 1); }
  }

  /** The labels of `n` down to the `k`-th stand at `at` in full. */
  predicate InlineTo(b: seq<byte>, at: nat, n: Name, k: nat)
    requires k < |n|
    decreases k
  {
    at < |b| && b[at] == |n[0]| && (k > 0 ==> InlineTo(b, at + 1 + |n[0]|, n[1..], k - 1))
  }

  lemma {:induction false} FreshIsInline(d: Suffixes, n: Name, k: nat, at: nat, b: seq<byte>)
    requires d.Bounded() && Labels(n) && k < |n| && Fresh(d, n, k)
    requires at + |Text(d, n)| <= |b| && b[at..at + |Text(d, n)|] == Text(d, n)
    ensures InlineTo(b, at, n, k) && Offset(n, k) < |Text(d, n)|
    decreases k
  {
    LabelText(n, at, b, Text(d, n[1..]));
    if k > 0 {
      FreshIsInline(d, n[1..], k - 1, at + 1 + |n[0]|, b);
    }
  }

  /** A suffix written out in full is itself spelled at its label, which the parser visits. */
  lemma {:induction false} InlineSuffix(b: seq<byte>, known: seq<bool>, at: nat, n: Name, h: nat, k: nat)
    requires |known| == |b| && Labels(n) && Encodes(b, known, at, n, h) && k < |n| && InlineTo(b, at, n, k)
    ensures Encodes(b, known, at + Offset(n, k), n[k..], h)
    ensures at + Offset(n, k) in Visited(b, known, at, n, h)
    decreases k
  {
    if k == 0 {
      assert n[0..] == n;
    } else {
      InlineSuffix(b, known, at + 1 + |n[0]|, n[1..], h, k - 1);
      assert n[1..][k - 1..] == n[k..];
    }
  }

  lemma {:induction false} HopsBound(d: Suffixes, depth: Depths, n: Name, b: seq<byte>, known: seq<bool>, at: nat)
    requires Sound(d, depth, b, known, at) && Labels(n)
    ensures Hops(d, depth, n) <= |n|
    decreases |n|
  {
    if n != [] && Wire(n) in d.entries {
      var key := Wire(n);
      assert EntrySound(key, d.entries[key], depth[key], b, known, at);
      var m: Name :| m != [] && Labels(m) && key == Wire(m) && depth[key] < |m|;
      WireInjective(n, m);
    } else if n != [] {
      HopsBound(d, depth, n[1..], b, known, at);
    }
  }

  lemma {:induction false} FreshHops(d: Suffixes, depth: Depths, n: Name, k: nat, b: seq<byte>, known: seq<bool>, at: nat)
    requires Sound(d, depth, b, known, at) && Labels(n) && k < |n| && Fresh(d, n, k)
    ensures Hops(d, depth, n) < |n[k..]|
    decreases k
  {
    if k == 0 {
      HopsBound(d, depth, n[1..], b, known, at);
    } else {
      FreshHops(d, depth, n[1..], k - 1, b, known, at);
    }
  }

  lemma NewEntrySound(d: Suffixes, depth: Depths, n: Name, at: nat, b: seq<byte>, known: seq<bool>, known': seq<bool>, key: seq<byte>)
    requires Sound(d, depth, b, known, at) && Labels(n) && |known'| == |b|
    requires var e := Emit(d, n, at); e.ok && at + |e.text| <= |b| && b[at..at + |e.text|] == e.text
    requires Encodes(b, known, at, n, Hops(d, depth, n))
    requires known' == Mark(known, Visited(b, known, at, n, Hops(d, depth, n)))
    requires key in Emit(d, n, at).dict.entries && key !in d.entries
    ensures EntrySound(key, Emit(d, n, at).dict.entries[key], Hops(d, depth, n), b, known', at + |Emit(d, n, at).text|)
  {
    hide Encodes, Visited, Wire, Fresh, InlineTo, Offset, Hops, Emit, Text;
    var h := Hops(d, depth, n);
    EmitText(d, n, at);
    var k := NewEntry(d, n, at, key);
    FreshIsInline(d, n, k, at, b);
    FreshHops(d, depth, n, k, b, known, at);
    InlineSuffix(b, known, at, n, h, k);
    EncodesMonotone(b, known, known', at + Offset(n, k), n[k..], h);
    SuffixLabels(n, k);
  }

  lemma SuffixLabels(n: Name, k: nat)
    requires Labels(n) && k < |n|
    ensures n[k..] != [] && Labels(n[k..])
  {
  }

  /** Reading the name just written re-establishes the invariant for the next one. */
  lemma WriteKeepsSound(d: Suffixes, depth: Depths, n: Name, at: nat, b: seq<byte>, known: seq<bool>)
    requires Sound(d, depth, b, known, at) && Labels(n)
    requires var e := Emit(d, n, at); e.ok && at + |e.text| <= |b| && b[at..at + |e.text|] == e.text
    ensures Encodes(b, known, at, n, Hops(d, depth, n))
    ensures InlineEnd(b, at) == at + |Emit(d, n, at).text|
    ensures var e := Emit(d, n, at);
            Sound(e.dict, Deepen(d, depth, n, e.dict), b,
                  Mark(known, Visited(b, known, at, n, Hops(d, depth, n))), at + |e.text|)
  {
    hide Encodes, Visited, Wire, Hops, Emit, Text, EntrySound, Mark, InlineEnd, Labels, Suffixes.Bounded;
    var e := Emit(d, n, at);
    EmitText(d, n, at);
    TextSpells(d, depth, n, at, b, known, at);
    var known' := Mark(known, Visited(b, known, at, n, Hops(d, depth, n)));
    var depth' := Deepen(d, depth, n, e.dict);
    forall key | key in e.dict.entries
      ensures EntrySound(key, e.dict.entries[key], depth'[key], b, known', at + |e.text|)
    {
      EntryAfterWrite(d, depth, n, at, b, known, key);
    }
  }

  lemma EntryAfterWrite(d: Suffixes, depth: Depths, n: Name, at: nat, b: seq<byte>, known: seq<bool>, key: seq<byte>)
    requires Sound(d, depth, b, known, at) && Labels(n)
    requires var e := Emit(d, n, at); e.ok && at + |e.text| <= |b| && b[at..at + |e.text|] == e.text
    requires Encodes(b, known, at, n, Hops(d, depth, n)) && key in Emit(d, n, at).dict.entries
    ensures var e := Emit(d, n, at);
            EntrySound(key, e.dict.entries[key], if key in depth then depth[key] else Hops(d, depth, n), b,
                       Mark(known, Visited(b, known, at, n, Hops(d, depth, n))), at + |e.text|)
  {
    hide Encodes, Visited, Wire, Hops, Emit, EntrySound;
    var e := Emit(d, n, at);
    var known' := Mark(known, Visited(b, known, at, n, Hops(d, depth, n)));
    if key in d.entries {
      EmitKeepsEntries(d, n, at, key);
      EntryStaysSound(key, d.entries[key], depth[key], b, known, known', at, at + |e.text|);
    } else {
      NewEntrySound(d, depth, n, at, b, known, known', key);
    }
  }

  lemma EntryStaysSound(key: seq<byte>, off: nat, hops: nat, b: seq<byte>, known: seq<bool>, known': seq<bool>, at: nat, at': nat)
    requires |known| == |b| == |known'| && at <= at' && EntrySound(key, off, hops, b, known, at)
    requires forall i :: 0 <= i < |b| && known[i] ==> known'[i]
    ensures EntrySound(key, off, hops, b, known', at')
  {
    var n: Name :| n != [] && Labels(n) && key == Wire(n) && off < at && off < |b| && known[off]
                   && hops < |n| && Encodes(b, known, off, n, hops);
    EncodesMonotone(b, known, known', off, n, hops);
  }

  // ---------------------------------------------------------------- whole messages

  /** A message body: octets that are not names, and names written through the dictionary. */
  datatype Item = Raw(octets: seq<byte>) | Written(name: Name)

  predicate ValidItems(items: seq<Item>) { forall i :: 0 <= i < |items| && items[i].Written? ==> ValidName(items[i].name) }

  function Names(items: seq<Item>): seq<Name>
  {
    if items == [] then []
    else (if items[0].Written? then [items[0].name] else []) + Names(items[1..])
  }

  function WriteAll(d: Suffixes, items: seq<Item>, at: nat): (e: Emission)
    requires d.Bounded() && ValidItems(items)
    decreases |items|
  {
    if items == [] then Emission(true, d, [])
    else match items[0]
      case Raw(x) =>
        var rest := WriteAll(d, items[1..], at + |x|);
        Emission(rest.ok, rest.dict, x + rest.text)
      case Written(n) =>
        var e := Emit(d, n, at);
        if !e.ok then e
        else
          var rest := WriteAll(e.dict, items[1..], at + |e.text|);
          Emission(rest.ok, rest.dict, e.text + rest.text)
  }

  /** Pointers the parser will follow for each name of the message, known to the writer. */
  function AllHops(d: Suffixes, depth: Depths, items: seq<Item>, at: nat): (hs: seq<nat>)
    requires d.Bounded() && depth.Keys == d.entries.Keys && ValidItems(items)
    decreases |items|
  {
    if items == [] then []
    else match items[0]
      case Raw(x) => AllHops(d, depth, items[1..], at + |x|)
      case Written(n) =>
        var e := Emit(d, n, at);
        [Hops(d, depth, n)] + AllHops(e.dict, Deepen(d, depth, n, e.dict), items[1..], at + |e.text|)
  }

  /** Loop rounds the parser spends on names with these hop counts. */
  function Work(names: seq<Name>, hops: seq<nat>): nat
    requires |names| == |hops|
  {
    if names == [] then 0 else |names[0]| + hops[0] + 1 + Work(names[1..], hops[1..])
  }

  /** One parser reading the message in the order it was written. */
  function ReadAll(b: seq<byte>, known: seq<bool>, work: nat, at: nat, items: seq<Item>): (r: Option<seq<Name>>)
    requires |known| == |b|
    decreases |items|
  {
    if items == [] then (if at == |b| then Some([]) else None)
    else match items[0]
      case Raw(x) => if at + |x| > |b| then None else ReadAll(b, known, work, at + |x|, items[1..])
      case Written(_) =>
        var c := Scan(b, known, true, Cursor(at, |b|, None, [], {}, 1, 0, work));
        if c.None? then None
        else
          var rest := ReadAll(b, Mark(known, c.value.positions), c.value.work, c.value.End(), items[1..]);
          if rest.None? then None else Some([c.value.labels] + rest.value)
  }

  predicate Bearable(hops: seq<nat>) { forall i :: 0 <= i < |hops| ==> hops[i] <= 64 }

  /** What the parser does with one name it finds spelled: it fails exactly on the hop and
      the work limit, and otherwise returns the name and goes on behind it. */
  lemma ReadOne(b: seq<byte>, known: seq<bool>, work: nat, at: nat, n: Name, h: nat)
    requires |known| == |b| && Encodes(b, known, at, n, h) && ValidName(n)
    ensures var c := Scan(b, known, true, Cursor(at, |b|, None, [], {}, 1, 0, work));
            && (c.Some? <==> h <= 64 && work + |n| + h + 1 <= MAX_WORK)
            && (c.Some? ==> c.value.labels == n && c.value.work == work + |n| + h + 1
                            && c.value.positions == Visited(b, known, at, n, h) && c.value.End() == InlineEnd(b, at))
  {
    var m, k := ScanExact(b, known, work, at, |b|, true);
    InlineFits(b, known, at, n, h);
    if Scan(b, known, true, Cursor(at, |b|, None, [], {}, 1, 0, work)).Some? {
      EncodesUnique(b, known, at, n, h, m, k);
    } else {
      assert !Readable(b, known, work, at, |b|, true, n, h);
    }
  }

  // ---------------------------------------------------------------- the round trip

  /** The hop and the work limit, in terms the writer knows. */
  predicate Affordable(names: seq<Name>, hops: seq<nat>, work: nat)
    requires |names| == |hops|
  {
    Bearable(hops) && work + Work(names, hops) <= MAX_WORK
  }

  lemma AffordableCons(n: Name, names: seq<Name>, h: nat, hops: seq<nat>, work: nat)
    requires |names| == |hops|
    ensures Affordable([n] + names, [h] + hops, work)
            <==> h <= 64 && work + |n| + h + 1 <= MAX_WORK && Affordable(names, hops, work + |n| + h + 1)
  {
    var all := [h] + hops;
    assert ([n] + names)[1..] == names && all[1..] == hops;
    assert forall i :: 0 <= i < |hops| ==> all[i + 1] == hops[i];
    if Bearable(all) {
      forall i | 0 <= i < |hops|
        ensures hops[i] <= 64
      {
        assert all[i + 1] <= 64;
      }
    }
  }

  /** What `ReadsBack` says of one position in the message. */
  ghost predicate ReadBack(d: Suffixes, depth: Depths, items: seq<Item>, b: seq<byte>, known: seq<bool>, work: nat, at: nat)
    requires |known| == |b| && d.Bounded() && depth.Keys == d.entries.Keys && ValidItems(items)
  {
    && |AllHops(d, depth, items, at)| == |Names(items)|
    && (ReadAll(b, known, work, at, items)
        == if Affordable(Names(items), AllHops(d, depth, items, at), work) then Some(Names(items)) else None)
    && forall i :: 0 <= i < |Names(items)| ==> AllHops(d, depth, items, at)[i] <= |Names(items)[i]|
  }

  /** The message written with `d` from `at` on fills the buffer `b`. */
  predicate Fills(d: Suffixes, items: seq<Item>, b: seq<byte>, at: nat)
    requires d.Bounded() && ValidItems(items)
  {
    var e := WriteAll(d, items, at);
    e.ok && |b| == at + |e.text| && b[at..] == e.text
  }

  lemma {:induction false} ReadsBack(d: Suffixes, depth: Depths, items: seq<Item>, b: seq<byte>, known: seq<bool>, work: nat, at: nat)
    requires Sound(d, depth, b, known, at) && ValidItems(items) && work <= MAX_WORK && Fills(d, items, b, at)
    ensures ReadBack(d, depth, items, b, known, work, at)
    decreases |items|
  {
    hide EntrySound, Encodes, Visited, InlineEnd, Mark, Hops, Emit, Deepen, Suffixes.Bounded, Scan;
    if items == [] {
    } else {
      match items[0]
      case Raw(x) =>
        RawPart(b, at, x, WriteAll(d, items[1..], at + |x|).text);
        SoundLater(d, depth, b, known, at, at + |x|);
        ReadsBack(d, depth, items[1..], b, known, work, at + |x|);
        ReadBackRaw(d, depth, items, b, known, work, at);
      case Written(n) =>
        var e, h := Emit(d, n, at), Hops(d, depth, n);
        RawPart(b, at, e.text, WriteAll(e.dict, items[1..], at + |e.text|).text);
        WriteKeepsSound(d, depth, n, at, b, known);
        HopsBound(d, depth, n, b, known, at);
        var w := work + |n| + h + 1;
        ReadsBack(e.dict, Deepen(d, depth, n, e.dict), items[1..], b, Mark(known, Visited(b, known, at, n, h)),
                  if w <= MAX_WORK then w else 0, at + |e.text|);
        ReadBackName(d, depth, items, b, known, work, at);
    }
  }

  lemma RawPart(b: seq<byte>, at: nat, x: seq<byte>, tail: seq<byte>)
    requires at <= |b| && b[at..] == x + tail
    ensures at + |x| <= |b| && b[at..at + |x|] == x && b[at + |x|..] == tail
  {
    assert b[at..][..|x|] == x && b[at..][|x|..] == tail;
  }

  lemma SoundLater(d: Suffixes, depth: Depths, b: seq<byte>, known: seq<bool>, at: nat, at': nat)
    requires Sound(d, depth, b, known, at) && at <= at'
    ensures Sound(d, depth, b, known, at')
  {
    hide Encodes, Wire;
    forall key | key in d.entries
      ensures EntrySound(key, d.entries[key], depth[key], b, known, at')
    {
      EntryStaysSound(key, d.entries[key], depth[key], b, known, known, at, at');
    }
  }

  lemma ReadBackRaw(d: Suffixes, depth: Depths, items: seq<Item>, b: seq<byte>, known: seq<bool>, work: nat, at: nat)
    requires |known| == |b| && d.Bounded() && depth.Keys == d.entries.Keys && ValidItems(items)
    requires items != [] && items[0].Raw? && at + |items[0].octets| <= |b|
    requires ReadBack(d, depth, items[1..], b, known, work, at + |items[0].octets|)
    ensures ReadBack(d, depth, items, b, known, work, at)
  {
    assert Names(items) == Names(items[1..]);
  }

  lemma ReadBackName(d: Suffixes, depth: Depths, items: seq<Item>, b: seq<byte>, known: seq<bool>, work: nat, at: nat)
    requires |known| == |b| && d.Bounded() && depth.Keys == d.entries.Keys && ValidItems(items) && work <= MAX_WORK
    requires items != [] && items[0].Written?
    requires Encodes(b, known, at, items[0].name, Hops(d, depth, items[0].name))
    requires Hops(d, depth, items[0].name) <= |items[0].name|
    requires var n := items[0].name; var h := Hops(d, depth, n); var e := Emit(d, n, at);
             var w := work + |n| + h + 1;
             && InlineEnd(b, at) == at + |e.text|
             && ReadBack(e.dict, Deepen(d, depth, n, e.dict), items[1..], b, Mark(known, Visited(b, known, at, n, h)),
                         if w <= MAX_WORK then w else 0, at + |e.text|)
    ensures ReadBack(d, depth, items, b, known, work, at)
  {
    hide Emit, Hops, Deepen, Scan, Encodes, Visited, InlineEnd, Mark, Affordable;
    var n := items[0].name;
    var h, e := Hops(d, depth, n), Emit(d, n, at);
    var names := Names(items[1..]);
    var hops := AllHops(e.dict, Deepen(d, depth, n, e.dict), items[1..], at + |e.text|);
    assert Names(items) == [n] + names;
    assert AllHops(d, depth, items, at) == [h] + hops;
    ReadOne(b, known, work, at, n, h);
    AffordableCons(n, names, h, hops, work);
  }

  const EmptyDictionary := Suffixes(map[], 0)

  function NothingKnown(b: seq<byte>): seq<bool> { seq(|b|, i => false) }

  /** A message written with a new dictionary, `b`, and the pointers it needs per name. */
  function Message(items: seq<Item>): (e: Emission)
    requires ValidItems(items)
  {
    WriteAll(EmptyDictionary, items, 0)
  }

  function MessageHops(items: seq<Item>): (hops: seq<nat>)
    requires ValidItems(items)
  {
    AllHops(EmptyDictionary, map[], items, 0)
  }

  /** The round trip: a new parser returns exactly the names written, case included, and ends
      at the end of the message, if and only if no name needs more than 64 pointers and the
      loop rounds stay within the work limit; otherwise it rejects the message. */
  lemma MessageRoundTrip(items: seq<Item>)
    requires ValidItems(items) && Message(items).ok
    ensures |MessageHops(items)| == |Names(items)|
    ensures var b := Message(items).text;
            ReadAll(b, NothingKnown(b), 0, 0, items)
            == if Affordable(Names(items), MessageHops(items), 0) then Some(Names(items)) else None
    ensures forall i :: 0 <= i < |Names(items)| ==> MessageHops(items)[i] <= |Names(items)[i]|
  {
    var b := Message(items).text;
    assert b[0..] == b;
    ReadsBack(EmptyDictionary, map[], items, b, NothingKnown(b), 0, 0);
  }

  function TotalLabels(names: seq<Name>): nat
  {
    if names == [] then 0 else |names[0]| + TotalLabels(names[1..])
  }

  /** Names of at most 64 labels, few enough of them, always survive. */
  lemma ShallowNamesSurvive(items: seq<Item>)
    requires ValidItems(items) && Message(items).ok
    requires forall i :: 0 <= i < |Names(items)| ==> |Names(items)[i]| <= 64
    requires 2 * TotalLabels(Names(items)) + |Names(items)| <= MAX_WORK
    ensures var b := Message(items).text; ReadAll(b, NothingKnown(b), 0, 0, items) == Some(Names(items))
  {
    hide *;
    MessageRoundTrip(items);
    ShallowIsAffordable(Names(items), MessageHops(items));
  }

  lemma ShallowIsAffordable(names: seq<Name>, hops: seq<nat>)
    requires |hops| == |names|
    requires forall i :: 0 <= i < |names| ==> hops[i] <= |names[i]| <= 64
    requires 2 * TotalLabels(names) + |names| <= MAX_WORK
    ensures Affordable(names, hops, 0)
  {
    WorkBound(names, hops);
  }

  lemma {:induction false} WorkBound(names: seq<Name>, hops: seq<nat>)
    requires |names| == |hops| && forall i :: 0 <= i < |names| ==> hops[i] <= |names[i]|
    ensures Work(names, hops) <= 2 * TotalLabels(names) + |names|
  {
    if names != [] {
      WorkBound(names[1..], hops[1..]);
    }
  }

  // ---------------------------------------------------------------- a message the parser refuses

  /** The name `x.x. ... x.` of `k` labels. */
  function Repeated(k: nat): (n: Name)
    ensures |n| == k && Labels(n)
  {
    seq(k, i => [120])
  }

  /** The names `Repeated(k + 1) .. Repeated(last)`. */
  function Nested(k: nat, last: nat): (items: seq<Item>)
    requires k <= last <= 66
    ensures ValidItems(items)
    decreases last - k
  {
    if k == last then [] else
      RepeatedLength(k + 1);
      var head := Written(Repeated(k + 1));
      var tail := Nested(k + 1, last);
      assert forall i :: 1 <= i <= |tail| ==> ([head] + tail)[i] == tail[i - 1];
      [head] + tail
  }

  lemma {:induction false} RepeatedLength(k: nat)
    ensures WireLen(Repeated(k)) == 2 * k + 1
  {
    if k > 0 {
      assert Repeated(k)[1..] == Repeated(k - 1);
      RepeatedLength(k - 1);
    }
  }

  /** After writing `Repeated(1) .. Repeated(k)`: each points to the one before. */
  ghost predicate Chain(d: Suffixes, depth: Depths, k: nat)
  {
    && d.Bounded() && depth.Keys == d.entries.Keys
    && |d.entries| <= k && d.bytes <= 135 * k
    && (k > 0 ==> Wire(Repeated(k)) in d.entries && depth[Wire(Repeated(k))] == k - 1)
    && forall key :: key in d.entries ==> |key| <= 2 * k + 1
  }

  lemma ChainStep(d: Suffixes, depth: Depths, k: nat, at: nat)
    requires Chain(d, depth, k) && k < 66 && at < 0x2000
    ensures var e := Emit(d, Repeated(k + 1), at);
            && e.ok && |e.text| <= 4
            && Hops(d, depth, Repeated(k + 1)) == k
            && Chain(e.dict, Deepen(d, depth, Repeated(k + 1), e.dict), k + 1)
  {
    hide Wire, Emit, Hops, Repeated;
    var n := Repeated(k + 1);
    RepeatedStep(k);
    NotYetWritten(d, depth, k);
    ChainEmit(d, n, Repeated(k), at);
    ChainHop(d, depth, n, Repeated(k));
    ChainKept(d, depth, k, at);
  }

  lemma RepeatedStep(k: nat)
    ensures Repeated(k + 1)[0] == [120] && Repeated(k + 1)[1..] == Repeated(k)
  {
  }

  lemma NotYetWritten(d: Suffixes, depth: Depths, k: nat)
    requires Chain(d, depth, k)
    ensures Wire(Repeated(k + 1)) !in d.entries && |Wire(Repeated(k + 1))| == 2 * k + 3
  {
    hide Wire;
    RepeatedLength(k + 1);
  }

  lemma ChainEmit(d: Suffixes, n: Name, m: Name, at: nat)
    requires d.Bounded() && Labels(n) && Labels(m) && n != [] && n[1..] == m && |n[0]| == 1 && at < 0x2000
    requires Wire(n) !in d.entries && (m == [] || Wire(m) in d.entries)
    ensures Emit(d, n, at).ok && |Emit(d, n, at).text| <= 4 && Emit(d, n, at).dict == d.Add(Wire(n), at)
  {
    hide Wire;
  }

  lemma ChainHop(d: Suffixes, depth: Depths, n: Name, m: Name)
    requires Labels(n) && Labels(m) && n != [] && n[1..] == m && depth.Keys == d.entries.Keys
    requires Wire(n) !in d.entries && (m == [] || Wire(m) in d.entries)
    ensures Hops(d, depth, n) == if m == [] then 0 else 1 + depth[Wire(m)]
  {
    hide Wire;
  }

  lemma ChainKept(d: Suffixes, depth: Depths, k: nat, at: nat)
    requires Chain(d, depth, k) && k < 66 && at < 0x2000 && Hops(d, depth, Repeated(k + 1)) == k
    requires Wire(Repeated(k + 1)) !in d.entries && |Wire(Repeated(k + 1))| == 2 * k + 3
    ensures var d' := d.Add(Wire(Repeated(k + 1)), at);
            Chain(d', Deepen(d, depth, Repeated(k + 1), d'), k + 1)
  {
    hide Wire, Hops, Repeated;
  }

  lemma {:induction false} ChainHops(d: Suffixes, depth: Depths, k: nat, at: nat)
    requires Chain(d, depth, k) && d.Bounded() && depth.Keys == d.entries.Keys && k < 66 && at <= 4 * k
    ensures WriteAll(d, Nested(k, 66), at).ok
    ensures var hops := AllHops(d, depth, Nested(k, 66), at); hops != [] && hops[|hops| - 1] == 65
    decreases 66 - k
  {
    hide Emit, Hops, Deepen, Wire, WriteAll, AllHops, Repeated, ValidItems, Chain, Labels, Suffixes.Bounded;
    ChainStep(d, depth, k, at);
    var n := Repeated(k + 1);
    var e := Emit(d, n, at);
    var tail := Nested(k + 1, 66);
    assert Nested(k, 66) == [Written(n)] + tail;
    FirstName(d, depth, n, tail, at);
    if k < 65 {
      ChainHops(e.dict, Deepen(d, depth, n, e.dict), k + 1, at + |e.text|);
    } else {
      NoNames(e.dict, Deepen(d, depth, n, e.dict), at + |e.text|);
    }
  }

  lemma FirstName(d: Suffixes, depth: Depths, n: Name, tail: seq<Item>, at: nat)
    requires d.Bounded() && depth.Keys == d.entries.Keys && ValidItems([Written(n)] + tail)
    ensures Labels(n) && ValidItems(tail)
    ensures var items, e := [Written(n)] + tail, Emit(d, n, at);
            && WriteAll(d, items, at).ok == (e.ok && WriteAll(e.dict, tail, at + |e.text|).ok)
            && AllHops(d, depth, items, at)
               == [Hops(d, depth, n)] + AllHops(e.dict, Deepen(d, depth, n, e.dict), tail, at + |e.text|)
  {
    hide Emit, Hops, Deepen;
    var items := [Written(n)] + tail;
    assert items[0] == Written(n) && items[1..] == tail;
    assert forall i :: 0 <= i < |tail| ==> tail[i] == items[i + 1];
  }

  lemma NoNames(d: Suffixes, depth: Depths, at: nat)
    requires d.Bounded() && depth.Keys == d.entries.Keys
    ensures ValidItems([]) && WriteAll(d, [], at).ok && AllHops(d, depth, [], at) == []
  {
  }

  /** The hop limit is reachable: 66 names, each one label longer than the last, are written
      without error into a message that the parser rejects. */
  lemma DeepChainIsRefused()
    ensures var items := Nested(0, 66);
            && Message(items).ok
            && ReadAll(Message(items).text, NothingKnown(Message(items).text), 0, 0, items) == None
  {
    hide Emit, Scan, Nested, Names, ReadAll, WriteAll;
    assert Chain(EmptyDictionary, map[], 0);
    ChainHops(EmptyDictionary, map[], 0, 0);
    MessageRoundTrip(Nested(0, 66));
  }
}
