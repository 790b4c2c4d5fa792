/** Transport checksums over IPv6, as `encode6` of src/nat64/translate.rs and `icmp_packet` of
    src/wire.rs fill them in. */
module TransportSums {
  import opened Bytes
  import opened Results
  import opened Checksum
  import opened UdpSegment

  /** `checksum_offset`. */
  function Field(protocol: byte): (at: nat)
    ensures at % 2 == 0
  {
    if protocol == 6 then 16 else if protocol == 17 then 6 else 2
  }

  /** `checksum` of src/wire.rs, for any next header. */
  function Sum(source: nat, destination: nat, protocol: byte, b: seq<byte>): nat
  {
    Complement(Sum16(Octets(source, 8)) + Sum16(Octets(destination, 8)) + Sum16(Octets(|b|, 2)) + protocol + Sum16(b))
  }

  /** The payload with its checksum field cleared and then filled; UDP sends 0xffff for zero. */
  function Filled(source: nat, destination: nat, protocol: byte, b: seq<byte>): (r: seq<byte>)
    requires |b| >= Field(protocol) + 2
    ensures |r| == |b|
  {
    var zeroed := Put16(b, Field(protocol), 0);
    var c := Sum(source, destination, protocol, zeroed);
    Put16(zeroed, Field(protocol), if protocol == 17 && c == 0 then 65535 else c)
  }

  /** TCP, UDP and ICMPv6: what is filled in verifies, and nothing else changes. */
  lemma FilledIsRight(source: nat, destination: nat, protocol: byte, b: seq<byte>)
    requires |b| >= Field(protocol) + 2
    ensures var r, at := Filled(source, destination, protocol, b), Field(protocol);
            Sum(source, destination, protocol, r) == 0 && r[..at] == b[..at] && r[at + 2..] == b[at + 2..]
  {
    hide Sum16, Put16, Complement, Octets, FromBe16;
    var at := Field(protocol);
    var zeroed := Put16(b, at, 0);
    var pseudo := Sum16(Octets(source, 8)) + Sum16(Octets(destination, 8)) + Sum16(Octets(|b|, 2)) + protocol;
    ZeroField(b, at);
    FilledVerifies(pseudo, zeroed, at);
  }

  lemma ZeroField(b: seq<byte>, at: nat)
    requires at + 2 <= |b|
    ensures Put16(b, at, 0)[at] == 0 && Put16(b, at, 0)[at + 1] == 0
  {
  }

  /** The body `icmp_packet` sends: too short or too long is an error, otherwise its checksum is right. */
  method IcmpBody(source: nat, destination: nat, body: seq<byte>) returns (r: Result<seq<byte>, ()>)
    ensures r.Ok? <==> 4 <= |body| <= 65535
    ensures r.Ok? ==> && |r.value| == |body| && r.value[..2] == body[..2] && r.value[4..] == body[4..]
                      && Sum(source, destination, 58, r.value) == 0
  {
    if |body| < 4 || |body| > 65535 { return Err(()); }
    FilledIsRight(source, destination, 58, body);
    hide Sum, Filled;
    return Ok(Filled(source, destination, 58, body));
  }
}
