/** Domain names as lists of labels, most specific label first (src/dns/wire.rs, `Name`). */
module DnsName {
  import opened Bytes

  type Label = seq<byte>
  type Name = seq<Label>

  /** Uncompressed wire length: one length octet per label plus the root octet. */
  function WireLen(n: Name): (r: nat)
    ensures r >= 1
  {
    if n == [] then 1 else 1 + |n[0]| + WireLen(n[1..])
  }

  /** What `Name::from_labels` accepts. */
  predicate ValidName(n: Name)
  {
    && (forall i :: 0 <= i < |n| ==> 1 <= |n[i]| <= 63)
    && WireLen(n) <= 255
  }

  predicate IsUpper(b: byte) { 65 <= b <= 90 }

  /** `u8::to_ascii_lowercase`. */
  function LowerByte(b: byte): byte { if IsUpper(b) then b + 32 else b }

  function LowerLabel(l: Label): Label { seq(|l|, i requires 0 <= i < |l| => LowerByte(l[i])) }

  function Lower(n: Name): Name { seq(|n|, i requires 0 <= i < |n| => LowerLabel(n[i])) }

  predicate NoUpperLabel(l: Label) { forall i :: 0 <= i < |l| ==> !IsUpper(l[i]) }

  predicate NoUpper(n: Name) { forall i :: 0 <= i < |n| ==> NoUpperLabel(n[i]) }

  lemma {:induction false} WireLenAppend(a: Name, b: Name)
    ensures WireLen(a + b) == WireLen(a) + WireLen(b) - 1
  {
    if a == [] {
      assert a + b == b;
    } else {
      WireLenAppend(a[1..], b);
      assert (a + b)[1..] == a[1..] + b;
    }
  }

  /** Every label costs at least two octets. */
  lemma {:induction false} WireLenLowerBound(n: Name)
    requires forall i :: 0 <= i < |n| ==> 1 <= |n[i]|
    ensures WireLen(n) >= 1 + 2 * |n|
  {
    if n != [] {
      WireLenLowerBound(n[1..]);
    }
  }

  lemma {:induction false} LowerFacts(n: Name)
    ensures WireLen(Lower(n)) == WireLen(n)
    ensures NoUpper(Lower(n))
    ensures ValidName(n) ==> ValidName(Lower(n))
  {
    if n != [] {
      LowerFacts(n[1..]);
      assert Lower(n)[1..] == Lower(n[1..]);
    }
  }
}
