/** The compression dictionary of src/dns/wire.rs. */
module NameWriter {
  import opened Bytes
  import opened DnsName
  import opened Results
  import opened NameCompression

  /** Suffixes (in wire form) to the offset at which they were first written. */
  datatype Suffixes = Suffixes(entries: map<seq<byte>, nat>, bytes: nat)
  {
    predicate Admits(suffix: seq<byte>, at: nat)
    {
      |entries| < 1024 && bytes + |suffix| <= 65536 && at < 0x4000
    }

    function Add(suffix: seq<byte>, at: nat): Suffixes
    {
      if Admits(suffix, at) then Suffixes(entries[suffix := at], bytes + |suffix|) else this
    }

    /** Both caps of the dictionary, and offsets a 14-bit pointer can hold. */
    predicate Bounded()
    {
      |entries| <= 1024 && bytes <= 65536 && forall k :: k in entries ==> entries[k] < 0x4000
    }
  }

  /** What writing a name leaves behind: the octets appended, the new dictionary, success. */
  datatype Emission = Emission(ok: bool, dict: Suffixes, text: seq<byte>)

  function Pointer(offset: nat): (p: seq<byte>)
    requires offset < 0x4000
    ensures |p| == 2 && p[0] >= 192
  {
    Be16(0xc000 + offset)
  }

  /** Writing `n` at offset `at`, label by label, until a known suffix can be pointed to. */
  function Emit(d: Suffixes, n: Name, at: nat): (e: Emission)
    requires d.Bounded() && Labels(n)
    ensures e.dict.Bounded()
    ensures e.ok && at <= MAX_WIRE ==> at + |e.text| <= MAX_WIRE
    decreases |n|
  {
    if n == [] then
      if at == MAX_WIRE then Emission(false, d, []) else Emission(true, d, [0])
    else if Wire(n) in d.entries then
      if at + 2 > MAX_WIRE then Emission(false, d, []) else Emission(true, d, Pointer(d.entries[Wire(n)]))
    else
      var d' := d.Add(Wire(n), at);
      var size := |n[0]| + 1;
      if at + size > MAX_WIRE then Emission(false, d', [])
      else
        var e := Emit(d', n[1..], at + size);
        Emission(e.ok, e.dict, [|n[0]|] + n[0] + e.text)
  }

  /** The same with the output buffer carried along, as the loop of `write_name` does. */
  function EmitOnto(d: Suffixes, n: Name, out: seq<byte>): (e: Emission)
    requires d.Bounded() && Labels(n)
    decreases |n|
  {
    if n == [] then
      if |out| == MAX_WIRE then Emission(false, d, out) else Emission(true, d, out + [0])
    else if Wire(n) in d.entries then
      if |out| + 2 > MAX_WIRE then Emission(false, d, out) else Emission(true, d, out + Pointer(d.entries[Wire(n)]))
    else
      var d' := d.Add(Wire(n), |out|);
      if |out| + |n[0]| + 1 > MAX_WIRE then Emission(false, d', out)
      else EmitOnto(d', n[1..], out + ([|n[0]|] + n[0]))
  }

  /** What a name appends depends on the buffer's length only, not on its contents. */
  lemma {:induction false} EmitOntoAppends(d: Suffixes, n: Name, out: seq<byte>)
    requires d.Bounded() && Labels(n)
    ensures var e := Emit(d, n, |out|);
            EmitOnto(d, n, out) == Emission(e.ok, e.dict, out + e.text)
    decreases |n|
  {
    hide Wire, Pointer;
    if n == [] || Wire(n) in d.entries || |out| + |n[0]| + 1 > MAX_WIRE {
      assert out + [] == out;
    } else {
      var head := [|n[0]|] + n[0];
      var d' := d.Add(Wire(n), |out|);
      EmitOntoAppends(d', n[1..], out + head);
      Assoc(out, head, Emit(d', n[1..], |out| + |n[0]| + 1).text);
    }
  }

  /** The three ways one round of the loop can go. */
  lemma EmitOntoRound(d: Suffixes, n: Name, out: seq<byte>, head: seq<byte>)
    requires d.Bounded() && Labels(n) && (n != [] ==> head == [|n[0]|] + n[0])
    ensures n == [] ==>
              EmitOnto(d, n, out) == if |out| == MAX_WIRE then Emission(false, d, out) else Emission(true, d, out + [0])
    ensures n != [] && Wire(n) in d.entries ==>
              EmitOnto(d, n, out) == if |out| + 2 > MAX_WIRE then Emission(false, d, out)
                                     else Emission(true, d, out + Pointer(d.entries[Wire(n)]))
    ensures n != [] && Wire(n) !in d.entries ==>
              EmitOnto(d, n, out) == if |out| + |head| > MAX_WIRE then Emission(false, d.Add(Wire(n), |out|), out)
                                     else EmitOnto(d.Add(Wire(n), |out|), n[1..], out + head)
  {
    hide Wire, Pointer;
  }

  class Dictionary {
    var entries: map<seq<byte>, nat>
    var bytes: nat

    ghost function View(): Suffixes
      reads this
    {
      Suffixes(entries, bytes)
    }

    constructor ()
      ensures View() == Suffixes(map[], 0) && View().Bounded()
    {
      entries, bytes := map[], 0;
    }

    /** Appends `name` to `out`; the suffix `wire[at..]` is looked up before each label. */
    method WriteName(name: Name, out: seq<byte>) returns (r: Result<(), Error>, out': seq<byte>)
      requires View().Bounded() && ValidName(name)
      modifies this
      ensures var e := Emit(old(View()), name, |out|);
              (r.Ok? <==> e.ok) && View() == e.dict && out' == out + e.text
      ensures View().Bounded()
    {
      hide Wire, Emit, Pointer, EmitOnto;
      var wire := Wire(name);
      var at: nat := 0;
      out' := out;
      ghost var rest := name;
      ghost var all := EmitOnto(View(), name, out);
      EmitOntoAppends(View(), name, out);
      while wire[at] != 0
        invariant 0 <= at < |wire| && Labels(rest) && wire[at..] == Wire(rest)
        invariant View().Bounded()
        invariant EmitOnto(View(), rest, out') == all
        decreases |wire| - at
      {
        WireStep(wire, at, rest);
        EmitOntoRound(View(), rest, out', wire[at..at + wire[at] + 1]);
        if wire[at..] in entries {
          if |out'| + 2 > MAX_WIRE {
            return Err(Invalid), out';
          }
          out' := out' + Pointer(entries[wire[at..]]);
          return Ok(()), out';
        }
        ghost var before := View();
        if |entries| < 1024 && bytes + |wire| - at <= 65536 && |out'| < 0x4000 {
          bytes := bytes + |wire| - at;
          entries := entries[wire[at..] := |out'|];
        }
        assert View() == before.Add(Wire(rest), |out'|);
        var n: nat := wire[at] + 1;
        if |out'| + n > MAX_WIRE {
          return Err(Invalid), out';
        }
        out' := out' + wire[at..at + n];
        at, rest := at + n, rest[1..];
      }
      WireStep(wire, at, rest);
      EmitOntoRound(View(), rest, out', []);
      if |out'| == MAX_WIRE {
        return Err(Invalid), out';
      }
      out' := out' + [0];
      return Ok(()), out';
    }
  }

  predicate Labels(n: Name) { forall i :: 0 <= i < |n| ==> 1 <= |n[i]| <= 63 }

  lemma WireStep(wire: seq<byte>, at: nat, rest: Name)
    requires at < |wire| && Labels(rest) && wire[at..] == Wire(rest)
    ensures wire[at] == 0 <==> rest == []
    ensures rest != [] ==>
              && wire[at] == |rest[0]| && Labels(rest[1..]) && at + 1 + |rest[0]| < |wire|
              && wire[at..at + 1 + |rest[0]|] == [|rest[0]|] + rest[0]
              && wire[at + 1 + |rest[0]|..] == Wire(rest[1..])
  {
    assert wire[at] == wire[at..][0];
    if rest != [] {
      var n := 1 + |rest[0]|;
      var head := [|rest[0]|] + rest[0];
      assert Wire(rest) == head + Wire(rest[1..]);
      assert wire[at..][..n] == head && wire[at..][n..] == Wire(rest[1..]);
      assert wire[at..at + n] == wire[at..][..n] && wire[at + n..] == wire[at..][n..];
    }
  }
}
