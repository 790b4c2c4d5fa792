/** UDP segments as src/nat64/translate.rs reads, rewrites and seals them. */
module UdpSegment {
  import opened Bytes
  import opened Checksum

  function SourcePort(b: seq<byte>): (n: nat)
    requires |b| >= 8
    ensures n <= U16_MAX
  {
    FromBe16(b[0], b[1])
  }

  function DestinationPort(b: seq<byte>): (n: nat)
    requires |b| >= 8
    ensures n <= U16_MAX
  {
    FromBe16(b[2], b[3])
  }

  /** `udp`: the length field is exact and the destination port is not zero. */
  predicate WellFormed(b: seq<byte>)
  {
    |b| >= 8 && FromBe16(b[4], b[5]) == |b| && DestinationPort(b) != 0
  }

  predicate HasChecksum(b: seq<byte>)
    requires |b| >= 8
  {
    b[6] != 0 || b[7] != 0
  }

  // ---------------------------------------------------------------- checksums

  /** The octets of a number of `words` 16-bit words, most significant first. */
  function Octets(a: nat, words: nat): (b: seq<byte>)
    ensures |b| == 2 * words
  {
    if words == 0 then [] else Octets(a / 65536, words - 1) + Be16(a % 65536)
  }

  /** What the IPv4 pseudo-header adds: `checksum4` runs over its octets and then the segment. */
  function Pseudo4(source: nat, destination: nat, length: nat): (b: seq<byte>)
    ensures |b| == 12
  {
    Octets(source, 2) + Octets(destination, 2) + [0, 17] + Be16(length)
  }

  function Checksum4(source: nat, destination: nat, b: seq<byte>): nat
  {
    Internet(Pseudo4(source, destination, |b|) + b)
  }

  /** What `checksum` of src/wire.rs adds before the segment. */
  function Pseudo6(source: nat, destination: nat, length: nat): nat
  {
    Sum16(Octets(source, 8)) + Sum16(Octets(destination, 8)) + Sum16(Octets(length, 2)) + 17
  }

  function Checksum6(source: nat, destination: nat, b: seq<byte>): nat
  {
    Complement(Pseudo6(source, destination, |b|) + Sum16(b))
  }

  /** The checksum field cleared, and then filled so that zero is sent as 0xffff. */
  function Seal(pseudo: nat, b: seq<byte>): (r: seq<byte>)
    requires |b| >= 8
    ensures |r| == |b|
  {
    var zeroed := Put16(b, 6, 0);
    var c := Complement(pseudo + Sum16(zeroed));
    Put16(zeroed, 6, if c == 0 then 65535 else c)
  }

  /** A sealed segment verifies, carries a checksum, and is otherwise what was sealed. */
  lemma SealVerifies(pseudo: nat, b: seq<byte>)
    requires |b| >= 8
    ensures Complement(pseudo + Sum16(Seal(pseudo, b))) == 0
    ensures HasChecksum(Seal(pseudo, b))
    ensures Seal(pseudo, b)[..6] == b[..6] && Seal(pseudo, b)[8..] == b[8..]
  {
    hide Sum16, Put16, Complement;
    var zeroed := Put16(b, 6, 0);
    PutReads(b, 6, 0);
    FilledVerifies(pseudo, zeroed, 6);
    var c := Complement(pseudo + Sum16(zeroed));
    PutReads(zeroed, 6, if c == 0 then 65535 else c);
  }

  lemma PutReads(b: seq<byte>, at: nat, n: nat)
    requires at + 2 <= |b| && n <= 65535
    ensures FromBe16(Put16(b, at, n)[at], Put16(b, at, n)[at + 1]) == n
  {
    Be16RoundTrip(n, 0, 0);
    assert Put16(b, at, n)[at..at + 2][0] == Put16(b, at, n)[at];
    assert Put16(b, at, n)[at..at + 2][1] == Put16(b, at, n)[at + 1];
  }

  /** The sum of the 16-bit words of a number. */
  function WordSum(a: nat, words: nat): nat { if words == 0 then 0 else a % 65536 + WordSum(a / 65536, words - 1) }

  lemma {:induction false} SumOfOctets(a: nat, words: nat)
    ensures Sum16(Octets(a, words)) == WordSum(a, words)
  {
    if words > 0 {
      hide Be16, Sum16;
      SumOfOctets(a / 65536, words - 1);
      Sum16Split(Octets(a / 65536, words - 1), Be16(a % 65536));
      SumOfWord(a % 65536);
    }
  }

  lemma SumOfWord(n: nat)
    requires n <= 65535
    ensures Sum16(Be16(n)) == n
  {
    Be16RoundTrip(n, 0, 0);
    assert Be16(n)[2..] == [];
  }

  /** A segment verifies under IPv4 exactly if its words, its length, the protocol number and the
      words of both addresses add up to a multiple of 65535. */
  lemma Checksum4Exactly(source: nat, destination: nat, b: seq<byte>)
    requires |b| <= 65535
    ensures Checksum4(source, destination, b) == 0 <==>
              Balanced(WordSum(source, 2) + WordSum(destination, 2) + 17 + |b| + Sum16(b))
  {
    hide Sum16, Complement, Octets, WordSum, Checksum4, Pseudo4, Balanced;
    Checksum4Sums(source, destination, b);
    PseudoSum(source, destination, |b|);
    ZeroExactly(Sum16(Pseudo4(source, destination, |b|)) + Sum16(b));
  }

  lemma PseudoSum(source: nat, destination: nat, length: nat)
    requires length <= 65535
    ensures Sum16(Pseudo4(source, destination, length)) == WordSum(source, 2) + WordSum(destination, 2) + 17 + length
  {
    hide Sum16, Octets, WordSum, Be16;
    SumOfOctets(source, 2);
    SumOfOctets(destination, 2);
    SumOfWord(length);
    SumOfWord(17);
    Seventeen();
    Sum16Split(Octets(source, 2) + Octets(destination, 2) + [0, 17], Be16(length));
    Sum16Split(Octets(source, 2) + Octets(destination, 2), [0, 17]);
    Sum16Split(Octets(source, 2), Octets(destination, 2));
  }

  lemma Seventeen()
    ensures [0, 17] == Be16(17)
  {
  }

  lemma OneWord(n: nat)
    requires n <= 65535
    ensures WordSum(n, 2) == n
  {
    assert n / 65536 == 0 && n % 65536 == n;
    assert WordSum(0, 1) == 0 + WordSum(0 / 65536, 0) == 0;
    assert WordSum(n, 2) == n % 65536 + WordSum(n / 65536, 1);
  }

  /** And under IPv6, with the words of the longer addresses. */
  lemma Checksum6Exactly(source: nat, destination: nat, b: seq<byte>)
    requires |b| <= 65535
    ensures Checksum6(source, destination, b) == 0 <==>
              Balanced(WordSum(source, 8) + WordSum(destination, 8) + 17 + |b| + Sum16(b))
  {
    hide Sum16, Complement, Octets, WordSum, Balanced;
    SumOfOctets(source, 8);
    SumOfOctets(destination, 8);
    SumOfOctets(|b|, 2);
    OneWord(|b|);
    ZeroExactly(Pseudo6(source, destination, |b|) + Sum16(b));
  }

  lemma Checksum4Sums(source: nat, destination: nat, b: seq<byte>)
    ensures Checksum4(source, destination, b) == Complement(Sum16(Pseudo4(source, destination, |b|)) + Sum16(b))
  {
    hide Sum16, Pseudo4, Complement, Internet;
    SumsApart(Pseudo4(source, destination, |b|), b);
  }

  lemma SumsApart(a: seq<byte>, b: seq<byte>)
    requires |a| == 12
    ensures Internet(a + b) == Complement(Sum16(a) + Sum16(b))
  {
    hide Sum16, Complement;
    Sum16Split(a, b);
  }

  // ---------------------------------------------------------------- rewriting

  /** The segment on its way out: a new source port under a new pseudo-header. */
  function Outward(b: seq<byte>, pool: nat, destination: nat, port: nat): (r: seq<byte>)
    requires |b| >= 8
    ensures |r| == |b|
  {
    Seal(Sum16(Pseudo4(pool, destination, |b|)), Put16(b, 0, port))
  }

  function Inward(b: seq<byte>, source: nat, host: nat, port: nat): (r: seq<byte>)
    requires |b| >= 8
    ensures |r| == |b|
  {
    Seal(Pseudo6(source, host, |b|), Put16(b, 2, port))
  }

  /** Only the source port and the checksum change, and the checksum is right. */
  lemma OutwardMeaning(b: seq<byte>, pool: nat, destination: nat, port: nat)
    requires WellFormed(b) && port <= U16_MAX
    ensures var r := Outward(b, pool, destination, port);
            && r[..6] == Be16(port) + b[2..6] && r[8..] == b[8..]
            && HasChecksum(r) && Checksum4(pool, destination, r) == 0
  {
    hide Seal, Put16, Sum16, Complement, Pseudo4, Internet, Checksum4, HasChecksum, Be16;
    var c := Put16(b, 0, port);
    var pseudo := Sum16(Pseudo4(pool, destination, |b|));
    SealVerifies(pseudo, c);
    Checksum4Sums(pool, destination, Seal(pseudo, c));
    SameTail(b, c, 2, 8);
    PutFront(b, c, port);
  }

  lemma PutFront(b: seq<byte>, c: seq<byte>, port: nat)
    requires |b| == |c| >= 8 && c[0..2] == Be16(port) && c[2..] == b[2..]
    ensures c[..6] == Be16(port) + b[2..6]
  {
    SameTail(b, c, 2, 2);
    assert c[..6] == c[0..2] + c[2..6];
  }

  /** The fields of such a segment. */
  lemma OutwardPorts(b: seq<byte>, r: seq<byte>, port: nat)
    requires WellFormed(b) && port <= U16_MAX && |r| == |b| && r[..6] == Be16(port) + b[2..6]
    ensures WellFormed(r) && SourcePort(r) == port && DestinationPort(r) == DestinationPort(b)
  {
    Be16RoundTrip(port, 0, 0);
    hide Be16, FromBe16;
    assert r[0] == r[..6][0] && r[1] == r[..6][1] && r[2] == r[..6][2] && r[3] == r[..6][3] && r[4] == r[..6][4] && r[5] == r[..6][5];
  }

  lemma InwardMeaning(b: seq<byte>, source: nat, host: nat, port: nat)
    requires WellFormed(b) && port <= U16_MAX
    ensures var r := Inward(b, source, host, port);
            && SourcePort(r) == SourcePort(b) && DestinationPort(r) == port && FromBe16(r[4], r[5]) == |r|
            && r[8..] == b[8..] && HasChecksum(r) && Checksum6(source, host, r) == 0
  {
    hide Seal, Put16, Sum16, Complement, Pseudo6;
    var c := Put16(b, 2, port);
    var pseudo := Pseudo6(source, host, |b|);
    SealVerifies(pseudo, c);
    PutReads(b, 2, port);
    SameHead(b, c, 2);
    SameTail(b, c, 4, 4);
    SameHead(c, Seal(pseudo, c), 6);
    SameTail(b, c, 4, 8);
  }

  lemma SameHead(a: seq<byte>, b: seq<byte>, n: nat)
    requires n <= |a| == |b| && a[..n] == b[..n]
    ensures forall i :: 0 <= i < n ==> a[i] == b[i]
  {
    forall i | 0 <= i < n
      ensures a[i] == b[i]
    {
      assert a[..n][i] == b[..n][i];
    }
  }

  lemma SameTail(a: seq<byte>, b: seq<byte>, n: nat, m: nat)
    requires n <= m <= |a| == |b| && a[n..] == b[n..]
    ensures forall i :: m <= i < |a| ==> a[i] == b[i]
    ensures a[m..] == b[m..]
  {
    forall i | n <= i < |a|
      ensures a[i] == b[i]
    {
      assert a[n..][i - n] == b[n..][i - n];
    }
  }
}
