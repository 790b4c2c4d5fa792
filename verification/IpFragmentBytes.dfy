/** Every fragment the fragmenter emits parses back to its offset and payload, and the
    collected header completes to the original packet. */
module IpFragmentBytes {
  import opened Bytes
  import opened Results
  import opened Checksum
  import opened IpPacket

  lemma Put16At(b: seq<byte>, at: nat, n: nat, i: nat)
    requires at + 2 <= |b| && i < |b|
    ensures Put16(b, at, n)[i] == if i == at then Be16(n)[0] else if i == at + 1 then Be16(n)[1] else b[i]
  {
  }

  lemma Put16Word(b: seq<byte>, at: nat, n: nat, other: nat)
    requires at + 2 <= |b| && other + 2 <= |b| && n <= 65535
    ensures Word(Put16(b, at, n), at) == n
    ensures other + 2 <= at || at + 2 <= other ==> Word(Put16(b, at, n), other) == Word(b, other)
  {
    hide Put16, Be16;
    Put16At(b, at, n, at);
    Put16At(b, at, n, at + 1);
    Put16At(b, at, n, other);
    Put16At(b, at, n, other + 1);
    Be16RoundTrip(n, 0, 0);
  }

  /** Overwriting a field twice keeps the last value. */
  lemma Put16Twice(b: seq<byte>, at: nat, m: nat, n: nat)
    requires at + 2 <= |b|
    ensures Put16(Put16(b, at, m), at, n) == Put16(b, at, n)
  {
  }

  /** Writing the value a field already holds changes nothing. */
  lemma Put16Same(b: seq<byte>, at: nat)
    requires at + 2 <= |b|
    ensures Put16(b, at, Word(b, at)) == b
  {
    Be16RoundTrip(0, b[at], b[at + 1]);
    assert b == b[..at] + [b[at], b[at + 1]] + b[at + 2..];
  }

  // ---------------------------------------------------------------- IPv6

  /** The header every IPv6 fragment of `b` is collected under. */
  function Collected6(b: seq<byte>): (h: seq<byte>)
    requires |b| >= 40
    ensures |h| == 40
  {
    Put16(b[..40], 4, 0)
  }

  function Key6(b: seq<byte>, id: nat): Key
    requires |b| >= 40
  {
    Key(0, b[8..24], b[24..40], 0, id)
  }

  /** The 48 octets in front of a fragment's payload. */
  function Front6(b: seq<byte>, offset: nat, more: bool, size: nat, id: nat): (f: seq<byte>)
    requires |b| >= 40
    ensures |f| == 48
  {
    Put16(b[..40][6 := 44], 4, size + 8) + [b[6], 0] + Be16(offset + Bit(more)) + Be32(id)
  }

  lemma Front6Octets(b: seq<byte>, offset: nat, more: bool, size: nat, id: nat)
    requires |b| >= 40
    ensures var f := Front6(b, offset, more, size, id);
            && (forall i :: 0 <= i < 40 && i !in {4, 5, 6} ==> f[i] == b[i])
            && f[4] == Be16(size + 8)[0] && f[5] == Be16(size + 8)[1] && f[6] == 44
            && f[40] == b[6] && f[41] == 0
            && f[42] == Be16(offset + Bit(more))[0] && f[43] == Be16(offset + Bit(more))[1]
            && f[44..46] == Be16(id / 65536) && f[46..48] == Be16(id)
  {
    hide Be16, Bit;
    var h := b[..40][6 := 44];
    forall i | 0 <= i < 40
      ensures Put16(h, 4, size + 8)[i] == if i == 4 then Be16(size + 8)[0] else if i == 5 then Be16(size + 8)[1] else h[i]
    {
      Put16At(h, 4, size + 8, i);
    }
  }

  lemma Front6Words(b: seq<byte>, offset: nat, more: bool, data: seq<byte>, id: nat)
    requires |b| >= 40 && offset % 8 == 0 && offset <= 65528 && |data| + 8 <= 65535 && id < 0x1_0000_0000
    ensures var p := Front6(b, offset, more, |data|, id) + data;
            && Word(p, 4) == |data| + 8
            && Word(p, 42) / 2 % 4 == 0 && Word(p, 42) / 8 * 8 == offset && Word(p, 42) % 2 == Bit(more)
            && Word(p, 44) * 65536 + Word(p, 46) == id
  {
    hide Front6, Be16;
    Front6Octets(b, offset, more, |data|, id);
    var f := Front6(b, offset, more, |data|, id);
    var p := f + data;
    assert forall i :: 0 <= i < 48 ==> p[i] == f[i];
    assert f[44..46][0] == f[44] && f[44..46][1] == f[45] && f[46..48][0] == f[46] && f[46..48][1] == f[47];
    Be16RoundTrip(|data| + 8, 0, 0);
    Be16RoundTrip(offset + Bit(more), 0, 0);
    Be16RoundTrip(id / 65536, 0, 0);
    Be16LowHalf(id);
  }

  lemma Be16LowHalf(id: nat)
    ensures FromBe16(Be16(id)[0], Be16(id)[1]) == id % 65536
  {
    var q, r := id / 65536, id % 65536;
    assert id / 256 == 256 * q + r / 256 && id % 256 == r % 256;
  }

  lemma Collected6Header(b: seq<byte>, offset: nat, more: bool, data: seq<byte>, id: nat)
    requires |b| >= 40
    ensures var p := Front6(b, offset, more, |data|, id) + data;
            && Put16(p[..40][6 := p[40]], 4, 0) == Collected6(b)
            && p[8..24] == b[8..24] && p[24..40] == b[24..40] && p[48..] == data
            && p[6] == 44 && p[40] == b[6] && p[41] == 0 && p[0] == b[0]
  {
    hide Front6, Be16;
    Front6Octets(b, offset, more, |data|, id);
    var f := Front6(b, offset, more, |data|, id);
    var p := f + data;
    assert forall i :: 0 <= i < 48 ==> p[i] == f[i];
    var h := p[..40][6 := p[40]];
    assert h[..4] == b[..40][..4] && h[6..] == b[..40][6..];
  }

  /** An IPv6 fragment parses back to exactly what it was made from. */
  lemma Piece6Parses(b: seq<byte>, offset: nat, more: bool, data: seq<byte>, id: nat)
    requires |b| >= 40 && Version(b) == 6 && b[6] in [6, 17, 58]
    requires offset % 8 == 0 && offset <= 65528 && |data| + 8 <= 65535 && id < 0x1_0000_0000
    ensures ParseFragment(Piece6(b, offset, more, data, id))
            == Ok(Some(Fragment(Key6(b, id), Collected6(b), offset, more, data)))
  {
    var p := Front6(b, offset, more, |data|, id) + data;
    assert p == Piece6(b, offset, more, data, id);
    Front6Words(b, offset, more, data, id);
    Collected6Header(b, offset, more, data, id);
    hide Front6, Put16, Piece6;
    assert Walk6(p, 40, 6, 16) == Ok(Some(Fragment(Key6(b, id), Collected6(b), offset, more, data)));
  }

  lemma Completes6(b: seq<byte>)
    requires |b| >= 40 && Version(b) == 6 && |b| == 40 + Word(b, 4)
    ensures Complete(Collected6(b), b[40..]) == Some(b)
  {
    hide Put16;
    Put16Word(b[..40], 4, 0, 0);
    Put16At(b[..40], 4, 0, 0);
    Put16Twice(b[..40], 4, 0, |b| - 40);
    assert Word(b[..40], 4) == Word(b, 4);
    Put16Same(b[..40], 4);
    assert b == b[..40] + b[40..];
  }

  // ---------------------------------------------------------------- IPv4

  /** A 20-octet IPv4 header with length, identification, flags word and checksum replaced. */
  function Fields4(b: seq<byte>, total: nat, id: nat, flags: nat, sum: nat): (h: seq<byte>)
    requires |b| >= 20
    ensures |h| == 20
  {
    b[..2] + Be16(total) + Be16(id) + Be16(flags) + b[8..10] + Be16(sum) + b[12..20]
  }

  /** Setting a field of such a header sets that field and no other. */
  lemma Fields4Put(b: seq<byte>, total: nat, id: nat, flags: nat, sum: nat, n: nat)
    requires |b| >= 20
    ensures var h := Fields4(b, total, id, flags, sum);
            && Put16(h, 2, n) == Fields4(b, n, id, flags, sum)
            && Put16(h, 4, n) == Fields4(b, total, n, flags, sum)
            && Put16(h, 6, n) == Fields4(b, total, id, n, sum)
            && Put16(h, 10, n) == Fields4(b, total, id, flags, n)
  {
    hide Be16;
    var h := Fields4(b, total, id, flags, sum);
    assert h[..2] == b[..2] && h[4..] == Be16(id) + Be16(flags) + b[8..10] + Be16(sum) + b[12..20];
    assert h[..4] == b[..2] + Be16(total) && h[6..] == Be16(flags) + b[8..10] + Be16(sum) + b[12..20];
    assert h[..6] == b[..2] + Be16(total) + Be16(id) && h[8..] == b[8..10] + Be16(sum) + b[12..20];
    assert h[..10] == b[..2] + Be16(total) + Be16(id) + Be16(flags) + b[8..10] && h[12..] == b[12..20];
  }

  lemma Fields4Self(b: seq<byte>)
    requires |b| >= 20
    ensures b[..20] == Fields4(b, Word(b, 2), Word(b, 4), Word(b, 6), Word(b, 10))
  {
    hide Be16, FromBe16;
    Be16RoundTrip(0, b[2], b[3]);
    Be16RoundTrip(0, b[4], b[5]);
    Be16RoundTrip(0, b[6], b[7]);
    Be16RoundTrip(0, b[10], b[11]);
  }

  lemma Fields4Read(b: seq<byte>, total: nat, id: nat, flags: nat, sum: nat, data: seq<byte>)
    requires |b| >= 20 && total <= 65535 && flags <= 65535 && sum <= 65535
    ensures var p := Fields4(b, total, id, flags, sum) + data;
            && p[0] == b[0] && p[9] == b[9] && p[12..16] == b[12..16] && p[16..20] == b[16..20]
            && Word(p, 2) == total && Word(p, 4) == id % 65536 && Word(p, 6) == flags && Word(p, 10) == sum
            && p[..20] == Fields4(b, total, id, flags, sum) && p[20..] == data
  {
    Be16RoundTrip(total, 0, 0);
    Be16RoundTrip(flags, 0, 0);
    Be16RoundTrip(sum, 0, 0);
    Be16LowHalf(id);
    hide Be16;
    var p := Fields4(b, total, id, flags, sum) + data;
    assert p[2..4] == Be16(total) && p[4..6] == Be16(id) && p[6..8] == Be16(flags) && p[10..12] == Be16(sum);
    assert p[2..4] == [p[2], p[3]] && p[4..6] == [p[4], p[5]] && p[6..8] == [p[6], p[7]] && p[10..12] == [p[10], p[11]];
  }

  function Collected4(b: seq<byte>, id: nat): (h: seq<byte>)
    requires |b| >= 20
    ensures |h| == 20
  {
    Fields4(b, 0, id, 0, 0)
  }

  function Key4(b: seq<byte>, id: nat): Key
    requires |b| >= 20
  {
    Key(0, b[12..16], b[16..20], b[9], id % 65536)
  }

  /** `b` under a new identification, without flags and with the checksum that then fits. */
  function Restored4(b: seq<byte>, id: nat): (r: seq<byte>)
    requires |b| >= 20
  {
    Fields4(b, |b|, id, 0, Internet(Fields4(b, |b|, id, 0, 0))) + b[20..]
  }

  lemma Header4OfFields(b: seq<byte>, offset: nat, more: bool, size: nat, id: nat)
    requires |b| >= 20
    ensures Header4Of(b, offset, more, size, id)
            == Fields4(b, size + 20, id, offset % 65536 / 8 + 8192 * Bit(more), 0)
  {
    hide Fields4, Put16;
    var t, i, f, c := Word(b, 2), Word(b, 4), Word(b, 6), Word(b, 10);
    Fields4Self(b);
    Fields4Put(b, t, i, f, c, size + 20);
    Fields4Put(b, size + 20, i, f, c, id);
    var flags := offset % 65536 / 8 + 8192 * Bit(more);
    Fields4Put(b, size + 20, id, f, c, flags);
    Fields4Put(b, size + 20, id, flags, c, 0);
  }

  /** The checksum the fragmenter writes verifies. */
  lemma Filled4(b: seq<byte>, total: nat, id: nat, flags: nat)
    requires |b| >= 20
    ensures Internet(Fields4(b, total, id, flags, Internet(Fields4(b, total, id, flags, 0)))) == 0
  {
    hide Put16, Sum16, Complement, Fold;
    var h := Fields4(b, total, id, flags, 0);
    assert h[10] == 0 && h[11] == 0;
    hide Fields4;
    FilledVerifies(0, h, 10);
    Fields4Put(b, total, id, flags, 0, Internet(h));
  }

  /** An IPv4 fragment, its offset in units of eight octets, parses back to exactly what it was
      made from. */
  lemma Piece4Parses(b: seq<byte>, units: nat, more: bool, data: seq<byte>, id: nat)
    requires |b| >= 20 && b[0] == 69
    requires 8 * units + |data| <= 65515 && data != [] && (more || units > 0)
    requires more ==> |data| % 8 == 0
    ensures ParseFragment(Piece4(b, 8 * units, more, data, id))
            == Ok(Some(Fragment(Key4(b, id), Collected4(b, id), 8 * units, more, data)))
  {
    hide Fields4, Put16, Internet, Header4Of, Parse4, Piece4, Word, FromBe16;
    var total, flags := |data| + 20, units + 8192 * Bit(more);
    var sum := Internet(Fields4(b, total, id, flags, 0));
    var p := Fields4(b, total, id, flags, sum) + data;
    Piece4Shape(b, units, more, data, id);
    Fields4Read(b, total, id, flags, sum, data);
    Filled4(b, total, id, flags);
    Parses4(p, units, more, data);
    Cleared4(b, total, id, flags, sum);
  }

  lemma Piece4Shape(b: seq<byte>, units: nat, more: bool, data: seq<byte>, id: nat)
    requires |b| >= 20 && units < 8192
    ensures var total, flags := |data| + 20, units + 8192 * Bit(more);
            Piece4(b, 8 * units, more, data, id)
            == Fields4(b, total, id, flags, Internet(Fields4(b, total, id, flags, 0))) + data
  {
    hide Fields4, Put16, Internet, Header4Of;
    var total, flags := |data| + 20, units + 8192 * Bit(more);
    Header4OfFields(b, 8 * units, more, |data|, id);
    assert 8 * units % 65536 / 8 == units;
    Fields4Put(b, total, id, flags, 0, Internet(Fields4(b, total, id, flags, 0)));
  }

  lemma Cleared4(b: seq<byte>, total: nat, id: nat, flags: nat, sum: nat)
    requires |b| >= 20
    ensures Put16(Put16(Put16(Fields4(b, total, id, flags, sum), 2, 0), 6, 0), 10, 0) == Collected4(b, id)
  {
    hide Fields4, Put16;
    Fields4Put(b, total, id, flags, sum, 0);
    Fields4Put(b, 0, id, flags, sum, 0);
    Fields4Put(b, 0, id, 0, sum, 0);
  }

  lemma Parses4(p: seq<byte>, units: nat, more: bool, data: seq<byte>)
    requires |p| == 20 + |data| && p[0] == 69 && Word(p, 2) == |p| && Internet(p[..20]) == 0
    requires 8 * units + |data| <= 65515 && (more ==> data != [] && |data| % 8 == 0)
    requires Word(p, 6) == units + 8192 * Bit(more)
    ensures Parse4(p) == Some(Header4(20, |p|, 8 * units, more))
  {
    hide Internet, FromBe16;
  }

  lemma Completes4(b: seq<byte>, id: nat)
    requires 20 <= |b| <= 65535 && b[0] == 69
    ensures Complete(Collected4(b, id), b[20..]) == Some(Restored4(b, id))
  {
    assert Collected4(b, id)[0] == 69;
    hide Fields4, Put16, Internet;
    Fields4Put(b, 0, id, 0, 0, |b|);
    Fields4Put(b, |b|, id, 0, 0, Internet(Fields4(b, |b|, id, 0, 0)));
  }

  /** What reassembly restores of an IPv4 packet: everything except identification, flags and
      header checksum; and the result is again a valid, unfragmented packet. */
  lemma Restored4Meaning(b: seq<byte>, id: nat)
    requires |b| >= 20 && b[0] == 69 && |b| == Word(b, 2)
    ensures var r := Restored4(b, id);
            && |r| == |b| && r[4..6] == Be16(id) && r[6..8] == [0, 0]
            && (forall i :: 0 <= i < |b| && i !in {4, 5, 6, 7, 10, 11} ==> r[i] == b[i])
            && Parse4(r) == Some(Header4(20, |b|, 0, false))
  {
    hide Internet, Be16, FromBe16, Fields4, Parse4;
    var sum := Internet(Fields4(b, |b|, id, 0, 0));
    Fields4Read(b, |b|, id, 0, sum, b[20..]);
    Filled4(b, |b|, id, 0);
    Parses4(Restored4(b, id), 0, false, b[20..]);
    Fields4Octets(b, id, sum);
    Fields4Halves(b, id, sum);
    assert forall i :: 20 <= i < |b| ==> Restored4(b, id)[i] == b[20..][i - 20];
  }

  lemma Fields4Octets(b: seq<byte>, id: nat, sum: nat)
    requires |b| >= 20 && |b| == Word(b, 2)
    ensures forall i :: 0 <= i < 20 && i !in {4, 5, 6, 7, 10, 11} ==> Fields4(b, |b|, id, 0, sum)[i] == b[i]
  {
    hide Be16;
    Be16RoundTrip(0, b[2], b[3]);
    assert Be16(|b|) == [b[2], b[3]];
  }

  lemma Fields4Halves(b: seq<byte>, id: nat, sum: nat)
    requires |b| >= 20
    ensures var r := Fields4(b, |b|, id, 0, sum) + b[20..]; r[4..6] == Be16(id) && r[6..8] == [0, 0]
  {
    hide Be16;
    ZeroWord();
  }

  lemma ZeroWord()
    ensures Be16(0) == [0, 0]
  {
  }
}
