/** What the parsers of src/ip_reassembly.rs and src/ipv4/wire.rs accept, octet by octet. */
module IpHeaders {
  import opened Bytes
  import opened Results
  import opened Checksum
  import opened IpPacket

  // ---------------------------------------------------------------- IPv4

  /** Octets 6 and 7 as a number, and their parts. */
  lemma FlagOctets(hi: byte, lo: byte)
    ensures var n := FromBe16(hi, lo);
            && (n >= 32768 <==> hi >= 128) && (n >= 16384 <==> hi >= 64) && (n >= 8192 <==> hi >= 32)
            && (n == 16384 <==> hi == 64 && lo == 0)
  {
  }

  /** A header is accepted exactly if its version is 4, its lengths are in order, its checksum is right
      and its options end in it; the reserved flag is clear, a packet that must not be fragmented is
      not a fragment, all fragments but the last hold whole blocks and none reaches past 65535. */
  lemma Parse4Exactly(b: seq<byte>)
    requires |b| >= 20
    ensures var h, n, block := (b[0] as int - 64) * 4, b[2] as int * 256 + b[3], b[6] as int * 256 + b[7];
            var offset := (if b[6] >= 64 then 0 else if b[6] >= 32 then block - 8192 else block) * 8;
            && (Parse4(b).Some? <==> && 69 <= b[0] < 80 && h <= n <= |b| && Internet(b[..h]) == 0 && OptionsOk(b, 20, h)
                                     && (b[6] < 64 || (b[6] == 64 && b[7] == 0))
                                     && (32 <= b[6] < 64 ==> n > h && (n - h) % 8 == 0)
                                     && offset + n - h <= 65535)
            && (Parse4(b).Some? ==> Parse4(b).value == Header4(h, n, offset, 32 <= b[6] < 64))
  {
    hide Internet, OptionsOk;
    FlagOctets(b[6], b[7]);
  }

  /** Options one after another from `marks[0]`: a single octet 1, or a kind with its own length of at
      least 2. The last mark is the end of the header, or padding with zeros starts there. */
  ghost predicate OptionList(b: seq<byte>, marks: seq<nat>, h: nat)
    requires h <= |b|
  {
    && marks != [] && marks[|marks| - 1] <= h
    && (forall i :: marks[|marks| - 1] <= i < h ==> b[i] == 0)
    && (forall i :: 0 <= i < |marks| - 1 ==> OneOption(b, marks[i], marks[i + 1], h))
  }

  ghost predicate OneOption(b: seq<byte>, at: nat, next: nat, h: nat)
    requires h <= |b|
  {
    at < next <= h && ((b[at] == 1 && next == at + 1) || (b[at] > 1 && next >= at + 2 && next == at + b[at + 1]))
  }

  lemma {:induction false} OptionsExactly(b: seq<byte>, at: nat, h: nat)
    requires at <= h <= |b|
    ensures OptionsOk(b, at, h) <==> exists marks :: OptionList(b, marks, h) && marks[0] == at
    decreases h - at
  {
    if at == h || b[at] == 0 {
      if OptionsOk(b, at, h) { assert OptionList(b, [at], h) && [at][0] == at; }
      if marks :| OptionList(b, marks, h) && marks[0] == at {
        NoOptionHere(b, marks, at, h);
      }
    } else {
      var next := if b[at] == 1 then at + 1 else if at + 1 < h then at + b[at + 1] as int else at;
      if OneOption(b, at, next, h) {
        OptionsExactly(b, next, h);
        OneMoreOption(b, at, next, h);
      } else if marks :| OptionList(b, marks, h) && marks[0] == at {
        NotTheLast(b, marks, at, h);
        assert false;
      }
    }
  }

  lemma NoOptionHere(b: seq<byte>, marks: seq<nat>, at: nat, h: nat)
    requires at <= h <= |b| && OptionList(b, marks, h) && marks[0] == at && (at == h || b[at] == 0)
    ensures forall i :: at <= i < h ==> b[i] == 0
  {
    if |marks| > 1 { assert OneOption(b, marks[0], marks[1], h); }
  }

  lemma NotTheLast(b: seq<byte>, marks: seq<nat>, at: nat, h: nat)
    requires at < h <= |b| && OptionList(b, marks, h) && marks[0] == at && b[at] != 0
    ensures |marks| > 1 && OneOption(b, at, marks[1], h)
  {
  }

  lemma OneMoreOption(b: seq<byte>, at: nat, next: nat, h: nat)
    requires at < h <= |b| && b[at] != 0 && OneOption(b, at, next, h)
    ensures (exists marks :: OptionList(b, marks, h) && marks[0] == at) <==> exists marks :: OptionList(b, marks, h) && marks[0] == next
  {
    if marks :| OptionList(b, marks, h) && marks[0] == at {
      NotTheLast(b, marks, at, h);
      var rest := marks[1..];
      forall i | 0 <= i < |rest| - 1
        ensures OneOption(b, rest[i], rest[i + 1], h)
      {
        assert OneOption(b, marks[i + 1], marks[i + 1 + 1], h);
      }
      assert OptionList(b, rest, h) && rest[0] == next;
    }
    if marks :| OptionList(b, marks, h) && marks[0] == next {
      var all := [at] + marks;
      forall i | 0 <= i < |all| - 1
        ensures OneOption(b, all[i], all[i + 1], h)
      {
        if i > 0 { assert OneOption(b, marks[i - 1], marks[i], h); }
      }
      assert OptionList(b, all, h) && all[0] == at;
    }
  }

  /** Where a fragment's data belongs, in octets 6 and 7. */
  function Place4(hi: byte, lo: byte): int { (hi as int * 256 + lo - if hi >= 32 then 8192 else 0) * 8 }

  /** A whole IPv4 packet is a fragment exactly if it has an offset or more follow; the lengths, flags
      and checksum of its header are not part of what fragments have in common. */
  lemma Fragment4Exactly(b: seq<byte>)
    requires |b| >= 20 && 64 <= b[0] < 80
    ensures ParseFragment(b).Err? <==> Parse4(b).None? || b[2] as int * 256 + b[3] != |b|
    ensures ParseFragment(b) == Ok(None) ==> (b[6] == 0 || b[6] == 64) && b[7] == 0
    ensures ParseFragment(b).Ok? && ParseFragment(b) != Ok(None) ==>
              var h := (b[0] as int - 64) * 4;
              && 20 <= h <= |b| && b[6] < 64 && (b[6] != 0 || b[7] != 0)
              && ParseFragment(b) ==
                 Ok(Some(Fragment(Key(0, b[12..16], b[16..20], b[9], b[4] as int * 256 + b[5]),
                                  b[..2] + [0, 0] + b[4..6] + [0, 0] + b[8..10] + [0, 0] + b[12..h], Place4(b[6], b[7]), b[6] >= 32, b[h..])))
  {
    hide Parse4, Internet, OptionsOk, Put16;
    Parse4Exactly(b);
    if Parse4(b).Some? {
      var h := (b[0] as int - 64) * 4;
      ZeroedHeader(b[..h]);
      assert b[..h][..2] == b[..2] && b[..h][4..6] == b[4..6] && b[..h][8..10] == b[8..10] && b[..h][12..] == b[12..h];
    }
  }

  lemma ZeroedHeader(b: seq<byte>)
    requires |b| >= 20
    ensures Put16(Put16(Put16(b, 2, 0), 6, 0), 10, 0) == b[..2] + [0, 0] + b[4..6] + [0, 0] + b[8..10] + [0, 0] + b[12..]
  {
    assert Be16(0) == [0, 0];
  }

  // ---------------------------------------------------------------- IPv6

  const Extensions: set<int> := {0, 43, 51, 60}

  /** Where the `k`th header after the fixed one stands, and the octet that names its kind, if all
      before it are extension headers. */
  ghost function HeaderAt(b: seq<byte>, k: nat): (r: Option<(nat, nat)>)
    requires |b| >= 40
    ensures r.Some? ==> 40 <= r.value.0 <= |b| && 6 <= r.value.1 < r.value.0
  {
    if k == 0 then Some((40, 6))
    else
      match HeaderAt(b, k - 1)
      case None => None
      case Some((at, kind)) =>
        if b[kind] as int !in Extensions || at + 2 > |b| then None
        else
          var end := if b[kind] == 51 then at + 8 + 4 * (b[at + 1] as int) else at + 8 + 8 * (b[at + 1] as int);
          if end <= |b| then Some((end, at)) else None
  }

  lemma {:induction false} WalkReaches(b: seq<byte>, k: nat)
    requires |b| >= 40 && k <= 16 && HeaderAt(b, k).Some?
    ensures Walk6(b, 40, 6, 16) == Walk6(b, HeaderAt(b, k).value.0, HeaderAt(b, k).value.1, 16 - k)
  {
    if k > 0 { WalkReaches(b, k - 1); }
  }

  /** A fragment header has clear reserved bits and stands before a transport header. */
  predicate GoodFragmentHeader(b: seq<byte>, at: nat)
  {
    at + 8 <= |b| && b[at + 1] == 0 && b[at + 3] % 8 <= 1 && b[at] as int !in Extensions + {44}
  }

  /** The fragment that it tells of. */
  function FragmentAt(b: seq<byte>, at: nat, kind: nat): Fragment
    requires 40 <= at && 6 <= kind < at && at + 8 <= |b|
  {
    Fragment(Key(0, b[8..24], b[24..40], 0, (b[at + 4] as int * 256 + b[at + 5]) * 65536 + (b[at + 6] as int * 256 + b[at + 7])),
             b[..4] + [0, 0] + b[6..kind] + [b[at]] + b[kind + 1..at],
             b[at + 2] as int * 256 + b[at + 3] - b[at + 3] % 8, b[at + 3] % 2 == 1, b[at + 8..])
  }

  /** The header where the extension headers end decides: the packet is no fragment, or the fragment
      that a good fragment header tells of, or an error. */
  lemma Fragment6Exactly(b: seq<byte>, k: nat)
    requires |b| >= 40 && 96 <= b[0] < 112 && b[4] as int * 256 + b[5] == |b| - 40
    requires k < 16 && HeaderAt(b, k).Some? && b[HeaderAt(b, k).value.1] as int !in Extensions
    ensures var (at, kind) := HeaderAt(b, k).value;
            ParseFragment(b) == if b[kind] != 44 then Ok(None) else if GoodFragmentHeader(b, at) then Ok(Some(FragmentAt(b, at, kind))) else Err(Invalid)
  {
    hide HeaderAt, Walk6, FragmentAt, WalkedFragment, Put16;
    WalkReaches(b, k);
    var (at, kind) := HeaderAt(b, k).value;
    WalkOver(b, at, kind, 16 - k);
    if b[kind] == 44 && at + 8 <= |b| {
      OffsetOctets(b[at + 2], b[at + 3]);
      SameFragment(b, at, kind);
    }
  }

  /** The last round of the walk, in its own terms. */
  lemma WalkOver(b: seq<byte>, at: nat, kind: nat, rounds: nat)
    requires |b| >= 40 && 40 <= at <= |b| && 6 <= kind < at && rounds > 0 && b[kind] as int !in Extensions
    ensures var r := Walk6(b, at, kind, rounds);
            if b[kind] != 44 then r == Ok(None)
            else if at + 8 > |b| || b[at + 1] != 0 || Word(b, at + 2) / 2 % 4 != 0 || b[at] as int in Extensions + {44} then r == Err(Invalid)
            else r == Ok(Some(WalkedFragment(b, at, kind)))
  {
    hide Put16, Word;
  }

  function WalkedFragment(b: seq<byte>, at: nat, kind: nat): Fragment
    requires 40 <= at && 6 <= kind < at && at + 8 <= |b|
  {
    var flags := Word(b, at + 2);
    Fragment(Key(0, b[8..24], b[24..40], 0, Word(b, at + 4) * 65536 + Word(b, at + 6)), Put16(b[..at][kind := b[at]], 4, 0),
             flags / 8 * 8, flags % 2 == 1, b[at + 8..])
  }

  lemma SameFragment(b: seq<byte>, at: nat, kind: nat)
    requires 40 <= at && 6 <= kind < at && at + 8 <= |b|
    ensures WalkedFragment(b, at, kind) == FragmentAt(b, at, kind)
  {
    hide Put16;
    OffsetOctets(b[at + 2], b[at + 3]);
    NamedHeader(b[..at], kind, b[at]);
    assert b[..at][..4] == b[..4] && b[..at][6..kind] == b[6..kind] && b[..at][kind + 1..] == b[kind + 1..at];
  }

  lemma OffsetOctets(hi: byte, lo: byte)
    ensures var n := FromBe16(hi, lo); (n / 2 % 4 == 0 <==> lo % 8 <= 1) && n / 8 * 8 == hi as int * 256 + lo - lo % 8 && n % 2 == lo % 2
  {
    Blocks(32 * (hi as int) + lo / 8, lo % 8);
    assert FromBe16(hi, lo) == 8 * (32 * (hi as int) + lo / 8) + lo % 8;
  }

  lemma Blocks(q: nat, r: nat)
    requires r < 8
    ensures var n := 8 * q + r; n / 8 == q && n % 2 == r % 2 && (n / 2 % 4 == 0 <==> r <= 1)
  {
    assert (8 * q + r) / 2 == 4 * q + r / 2;
  }

  lemma NamedHeader(b: seq<byte>, kind: nat, next: byte)
    requires 6 <= kind < |b|
    ensures Put16(b[kind := next], 4, 0) == b[..4] + [0, 0] + b[6..kind] + [next] + b[kind + 1..]
  {
    assert Be16(0) == [0, 0];
  }

  /** Sixteen extension headers, or one that is cut off, are an error. */
  lemma EndlessHeaders(b: seq<byte>)
    requires |b| >= 40 && 96 <= b[0] < 112 && b[4] as int * 256 + b[5] == |b| - 40
    requires forall k: nat :: k < 16 && HeaderAt(b, k).Some? ==> b[HeaderAt(b, k).value.1] as int in Extensions
    ensures ParseFragment(b) == Err(Invalid)
  {
    hide HeaderAt;
    FirstHeader(b);
    WalkFails(b, 0);
  }

  lemma FirstHeader(b: seq<byte>)
    requires |b| >= 40
    ensures HeaderAt(b, 0) == Some((40, 6))
  {
  }

  lemma {:induction false} WalkFails(b: seq<byte>, k: nat)
    requires |b| >= 40 && k <= 16 && HeaderAt(b, k).Some?
    requires forall k: nat :: k < 16 && HeaderAt(b, k).Some? ==> b[HeaderAt(b, k).value.1] as int in Extensions
    ensures Walk6(b, HeaderAt(b, k).value.0, HeaderAt(b, k).value.1, 16 - k) == Err(Invalid)
    decreases 16 - k
  {
    if k < 16 && HeaderAt(b, k + 1).Some? { WalkFails(b, k + 1); }
  }

  // ---------------------------------------------------------------- what can be fragmented

  /** An IPv6 packet whose transport header follows at once, or an IPv4 packet without options that is
      not a fragment, at an MTU that the standard allows. */
  lemma SplittableExactly(b: seq<byte>, mtu: nat)
    ensures |b| >= 40 && 96 <= b[0] < 112 ==>
              Splittable(b, mtu) == if mtu >= 1280 && 40 + b[4] as int * 256 + b[5] <= |b| && b[6] in {6, 17, 58} then Some((40, 48)) else None
    ensures |b| >= 20 && 64 <= b[0] < 80 ==>
              Splittable(b, mtu) == if mtu >= 68 && b[0] == 69 && Parse4(b).Some? && (b[6] == 0 || b[6] == 64) && b[7] == 0 then Some((20, 20)) else None
    ensures |b| < 20 || (96 <= b[0] < 112 && |b| < 40) || !(64 <= b[0] < 80 || 96 <= b[0] < 112) ==> Splittable(b, mtu) == None
  {
    hide Parse4, Internet, OptionsOk;
    if |b| >= 20 { Parse4Exactly(b); }
  }
}
