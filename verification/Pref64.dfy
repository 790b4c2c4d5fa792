/** The PREF64 option of src/wire.rs. */
module Pref64 {
  import opened Bytes
  import opened Results
  import opened UdpSegment

  datatype Prefix = Prefix(address: nat, length: nat)

  const Lengths := [96, 64, 56, 48, 40, 32]

  /** 2^32: the options carry no address bits below it. */
  const WORD := 0x1_0000_0000

  /** 2^(128 - length). */
  function Unit(length: nat): (r: nat)
    requires length in Lengths
    ensures r > 0
  {
    if length == 96 then WORD
    else if length == 64 then 0x1_0000_0000_0000_0000
    else if length == 56 then 0x100_0000_0000_0000_0000
    else if length == 48 then 0x1_0000_0000_0000_0000_0000
    else if length == 40 then 0x100_0000_0000_0000_0000_0000
    else 0x1_0000_0000_0000_0000_0000_0000
  }

  /** `Prefix::new`: the bits past the length are cleared. */
  function Masked(address: nat, length: nat): Prefix
    requires length in Lengths
  {
    Prefix(address - address % Unit(length), length)
  }

  /** A prefix a PREF64 option can carry, in canonical form. */
  predicate Usable(p: Prefix)
  {
    p.length in Lengths && p.address < WORD * Range(6) && p.address % Unit(p.length) == 0
  }

  /** How many numbers so many 16-bit words can hold. */
  function Range(words: nat): nat
  {
    if words == 0 then 1 else 65536 * Range(words - 1)
  }

  function Position(length: nat): (i: nat)
    requires length in Lengths
    ensures i < 6 && Lengths[i] == length
  {
    if length == 96 then 0 else if length == 64 then 1 else if length == 56 then 2
    else if length == 48 then 3 else if length == 40 then 4 else 5
  }

  /** The lifetime is rounded up to a multiple of eight seconds. */
  function Scaled(lifetime: nat): (r: nat)
    ensures r % 8 == 0 && r <= 65528
    ensures lifetime % 8 == 0 && lifetime <= 65528 ==> r == lifetime
  {
    (Min(lifetime, 65528) as nat + 7) / 8 * 8
  }

  /** An option never tells less than what is left, unless it can tell no more. */
  lemma ScaledExactly(lifetime: nat)
    ensures if lifetime <= 65528 then lifetime <= Scaled(lifetime) < lifetime + 8 else Scaled(lifetime) == 65528
  {
  }

  function Encode(p: Prefix, lifetime: nat): (r: Option<seq<byte>>)
  {
    if !Usable(p) then None
    else Some([38, 2] + Be16(Scaled(lifetime) + Position(p.length)) + Octets(p.address / WORD, 6))
  }

  /** The number whose octets these are. */
  function Number(b: seq<byte>): nat
  {
    if b == [] then 0 else Number(b[..|b| - 1]) * 256 + b[|b| - 1]
  }

  function Decode(b: seq<byte>): (r: Option<(Prefix, nat)>)
  {
    if |b| != 16 || b[0] != 38 || b[1] != 2 then None
    else
      var word := FromBe16(b[2], b[3]);
      if word % 8 >= 6 then None
      else Some((Masked(Number(b[4..]) * WORD, Lengths[word % 8]), word - word % 8))
  }

  lemma {:induction false} NumberOfOctets(a: nat, words: nat)
    requires a < Range(words)
    ensures Number(Octets(a, words)) == a
  {
    if words > 0 {
      var b, hi, lo := Octets(a, words), Octets(a / 65536, words - 1), a % 65536;
      NumberOfOctets(a / 65536, words - 1);
      assert b == hi + Be16(lo);
      assert b[..|b| - 1] == hi + [lo / 256] && (hi + [lo / 256])[..|hi|] == hi;
      assert Number(hi + [lo / 256]) == Number(hi) * 256 + lo / 256;
    }
  }

  /** No prefix is longer than 96 bits, so its last 32 are zero. */
  lemma LastWordZero(p: Prefix)
    requires Usable(p)
    ensures p.address == p.address / WORD * WORD && p.address / WORD < Range(6)
    ensures Masked(p.address, p.length) == p
  {
    hide Range;
    var a := p.address;
    var n := if p.length == 96 then a / WORD
             else if p.length == 64 then a / 0x1_0000_0000_0000_0000 * 0x1_0000_0000
             else if p.length == 56 then a / 0x100_0000_0000_0000_0000 * 0x100_0000_0000
             else if p.length == 48 then a / 0x1_0000_0000_0000_0000_0000 * 0x1_0000_0000_0000
             else if p.length == 40 then a / 0x100_0000_0000_0000_0000_0000 * 0x100_0000_0000_0000
             else a / 0x1_0000_0000_0000_0000_0000_0000 * 0x1_0000_0000_0000_0000;
    assert a == n * WORD;
    WholeWords(a, n);
  }

  lemma WholeWords(a: nat, n: nat)
    requires a == n * WORD
    ensures a / WORD == n
  {
  }

  /** An encoded option decodes to the same prefix, and to the same lifetime when that is a
      multiple of eight within the field; otherwise to the next larger one. */
  lemma RoundTrip(p: Prefix, lifetime: nat)
    requires Usable(p)
    ensures Encode(p, lifetime).Some? && Decode(Encode(p, lifetime).value) == Some((p, Scaled(lifetime)))
  {
    hide Range, Number, Octets, Unit, Masked, Scaled, Position;
    var word := Scaled(lifetime) + Position(p.length);
    var b := Encode(p, lifetime).value;
    LastWordZero(p);
    NumberOfOctets(p.address / WORD, 6);
    Be16RoundTrip(word, 0, 0);
    Fields(word, Octets(p.address / WORD, 6));
    assert word % 8 == Position(p.length);
  }

  /** The option as section 4 of RFC 8781 lays it out: type 38, two units of eight octets, the lifetime
      with the code of the prefix length in its low three bits, and the first 96 bits of the prefix. */
  lemma OptionLayout(p: Prefix, lifetime: nat)
    requires Usable(p)
    ensures var b := Encode(p, lifetime).value;
            && |b| == 16 && b[0] == 38 && b[1] == 2 && b[4..] == Octets(p.address / 0x1_0000_0000, 6)
            && var code := b[2] as int * 256 + b[3] - Scaled(lifetime);
            && (code == 0 <==> p.length == 96) && (code == 1 <==> p.length == 64) && (code == 2 <==> p.length == 56)
            && (code == 3 <==> p.length == 48) && (code == 4 <==> p.length == 40) && (code == 5 <==> p.length == 32)
  {
    hide Range, Octets, Unit, Scaled, Be16, Position;
    var word := Scaled(lifetime) + Position(p.length);
    Be16RoundTrip(word, 0, 0);
    Fields(word, Octets(p.address / WORD, 6));
    Codes(p.length);
  }

  lemma Codes(length: nat)
    requires length in Lengths
    ensures var code := Position(length);
            && (code == 0 <==> length == 96) && (code == 1 <==> length == 64) && (code == 2 <==> length == 56)
            && (code == 3 <==> length == 48) && (code == 4 <==> length == 40) && (code == 5 <==> length == 32)
  {
  }

  lemma Fields(word: nat, tail: seq<byte>)
    ensures var b := [38, 2] + Be16(word) + tail;
            |b| == 4 + |tail| && b[0] == 38 && b[1] == 2 && b[2] == Be16(word)[0] && b[3] == Be16(word)[1] && b[4..] == tail
  {
  }
}
