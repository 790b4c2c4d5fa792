/** The Internet checksum as src/ipv4/wire.rs, src/wire.rs and src/nat64/translate.rs compute it. */
module Checksum {
  import opened Bytes

  /** Sum of big-endian 16-bit words; a last odd octet counts as a high octet. */
  function Sum16(b: seq<byte>): (s: nat)
    ensures s <= 65535 * ((|b| + 1) / 2)
  {
    if |b| == 0 then 0
    else if |b| == 1 then b[0] as int * 256
    else FromBe16(b[0], b[1]) + Sum16(b[2..])
  }

  /** The one's complement representative of a sum: what repeated end-around carry leaves. */
  function Fold(s: nat): (r: nat)
    ensures r <= 65535
  {
    if s == 0 then 0 else 1 + (s - 1) % 65535
  }

  function Complement(s: nat): (c: nat)
    ensures c <= 65535
  {
    65535 - Fold(s)
  }

  /** `ipv4::wire::checksum`. */
  function Internet(b: seq<byte>): (c: nat)
    ensures c <= 65535
  {
    Complement(Sum16(b))
  }

  /** `src[at..at + 2]` overwritten by a 16-bit value. */
  function Put16(b: seq<byte>, at: nat, n: nat): (r: seq<byte>)
    requires at + 2 <= |b|
    ensures |r| == |b| && r[at..at + 2] == Be16(n)
    ensures r[..at] == b[..at] && r[at + 2..] == b[at + 2..]
  {
    b[..at] + Be16(n) + b[at + 2..]
  }

  // ---------------------------------------------------------------- the loops

  /** One end-around carry keeps the representative. */
  lemma CarryKeepsFold(s: nat)
    requires s > 65535
    ensures 0 < s % 65536 + s / 65536 < s
    ensures Fold(s % 65536 + s / 65536) == Fold(s)
  {
    var hi, lo := s / 65536, s % 65536;
    var t := lo + hi;
    assert s == 65536 * hi + lo;
    assert s - 1 == (t - 1) + 65535 * hi;
    ModMultiple(t - 1, hi);
  }

  lemma {:induction false} ModMultiple(a: nat, k: nat)
    ensures (a + 65535 * k) % 65535 == a % 65535
    decreases k
  {
    if k > 0 {
      ModMultiple(a, k - 1);
      assert (a + 65535 * (k - 1) + 65535) % 65535 == (a + 65535 * (k - 1)) % 65535;
    }
  }

  /** The carry loop on a 32-bit accumulator. */
  method Carry(sum: nat) returns (c: nat)
    ensures c == Complement(sum)
  {
    var n := sum;
    while n > 65535
      invariant Fold(n) == Fold(sum)
    {
      CarryKeepsFold(n);
      n := n % 65536 + n / 65536;
    }
    c := 65535 - n;
  }

  /** Adds the words of `b`, two octets at a time, to an accumulator that stays within 32 bits
      for every IP packet. */
  method AddWords(start: nat, b: seq<byte>) returns (sum: nat)
    requires start <= 65535 * 32 && |b| <= 65575
    ensures sum == start + Sum16(b) && sum < 0x1_0000_0000
  {
    sum := start;
    var at := 0;
    while at < |b|
      invariant 0 <= at <= |b| + 1 && at % 2 == 0
      invariant sum + Sum16(b[Min(at, |b|)..]) == start + Sum16(b)
      decreases |b| - at
    {
      assert b[at..][0] == b[at];
      if at + 1 < |b| {
        assert b[at..][1] == b[at + 1];
        assert b[at..][2..] == b[at + 2..];
      }
      sum := sum + b[at] as int * 256 + if at + 1 < |b| then b[at + 1] else 0;
      at := at + 2;
    }
  }

  /** `checksum` over a plain octet string. */
  method Compute(b: seq<byte>) returns (c: nat)
    requires |b| <= 65575
    ensures c == Internet(b)
  {
    var sum := AddWords(0, b);
    c := Carry(sum);
  }

  // ---------------------------------------------------------------- filling in a checksum

  lemma {:induction false} Sum16Split(a: seq<byte>, b: seq<byte>)
    requires |a| % 2 == 0
    ensures Sum16(a + b) == Sum16(a) + Sum16(b)
  {
    if a == [] {
      assert a + b == b;
    } else {
      assert (a + b)[2..] == a[2..] + b;
      Sum16Split(a[2..], b);
    }
  }

  /** Overwriting an aligned zero word adds exactly the new word. */
  lemma Put16Sum(b: seq<byte>, at: nat, n: nat)
    requires at % 2 == 0 && at + 2 <= |b| && n <= 65535
    ensures Sum16(Put16(b, at, n)) + FromBe16(b[at], b[at + 1]) == Sum16(b) + n
  {
    hide Sum16, Be16, FromBe16;
    SplitAtWord(b, at);
    Assoc(b[..at], Be16(n), b[at + 2..]);
    Sum16Word(b[..at], b[at..at + 2], b[at + 2..]);
    Sum16Word(b[..at], Be16(n), b[at + 2..]);
    Be16RoundTrip(n, 0, 0);
  }

  lemma SplitAtWord(b: seq<byte>, at: nat)
    requires at + 2 <= |b|
    ensures b == b[..at] + (b[at..at + 2] + b[at + 2..])
    ensures b[at..at + 2][0] == b[at] && b[at..at + 2][1] == b[at + 1]
  {
  }

  lemma Sum16Word(a: seq<byte>, w: seq<byte>, t: seq<byte>)
    requires |a| % 2 == 0 && |w| == 2
    ensures Sum16(a + (w + t)) == Sum16(a) + FromBe16(w[0], w[1]) + Sum16(t)
  {
    Sum16Split(a, w + t);
    Sum16Split(w, t);
    assert w[2..] == [] && Sum16(w) == FromBe16(w[0], w[1]) + Sum16(w[2..]);
  }

  /** A sum plus its own complement folds to all ones. */
  /** A positive multiple of 65535. */
  ghost predicate Balanced(s: nat) { exists k: nat :: k > 0 && s == 65535 * k }

  /** A sum verifies exactly if it is a positive multiple of 65535. */
  lemma ZeroExactly(s: nat)
    ensures Complement(s) == 0 <==> Balanced(s)
  {
    if Complement(s) == 0 {
      assert s == 65535 * ((s - 1) / 65535 + 1);
    }
    if k: nat :| k > 0 && s == 65535 * k {
      ModMultiple(65534, k - 1);
    }
  }

  lemma ComplementCancels(s: nat)
    ensures Complement(s + Complement(s)) == 0
    ensures Complement(s) == 0 ==> Complement(s + 65535) == 0
  {
    if s > 0 {
      var q := (s - 1) / 65535;
      assert s + Complement(s) - 1 == 65534 + 65535 * q;
      ModMultiple(65534, q);
      if Complement(s) == 0 {
        ModMultiple(65534, q + 1);
      }
    }
  }

  /** A checksum written into its zeroed, aligned field makes the receiver's sum vanish,
      whatever a pseudo-header contributes; so does the 0xffff that UDP sends for zero. */
  lemma FilledVerifies(pseudo: nat, b: seq<byte>, at: nat)
    requires at % 2 == 0 && at + 2 <= |b| && b[at] == 0 && b[at + 1] == 0
    ensures var c := Complement(pseudo + Sum16(b));
            && Complement(pseudo + Sum16(Put16(b, at, c))) == 0
            && Complement(pseudo + Sum16(Put16(b, at, if c == 0 then 65535 else c))) == 0
  {
    hide Sum16, Put16;
    var c := Complement(pseudo + Sum16(b));
    Put16Sum(b, at, c);
    Put16Sum(b, at, 65535);
    ComplementCancels(pseudo + Sum16(b));
  }
}
