/** IP headers as src/ip_reassembly.rs reads and writes them: fragment parsing, header
    completion and fragmentation, octet by octet. */
module IpPacket {
  import opened Bytes
  import opened Results
  import opened Checksum

  datatype Error = Invalid | Capacity

  /** (scope, source, destination, protocol, identification); the length of the address
      strings tells the families apart. */
  datatype Key = Key(scope: byte, source: seq<byte>, destination: seq<byte>, protocol: byte, id: nat)

  datatype Fragment = Fragment(key: Key, header: seq<byte>, offset: nat, more: bool, payload: seq<byte>)

  function Word(b: seq<byte>, at: nat): (n: nat)
    requires at + 2 <= |b|
    ensures n <= 65535
  {
    FromBe16(b[at], b[at + 1])
  }

  /** The high nibble of the first octet. */
  function Version(b: seq<byte>): nat
  {
    if b == [] then 0 else b[0] / 16
  }

  function Be32(n: nat): (s: seq<byte>)
    ensures |s| == 4
  {
    Be16(n / 65536) + Be16(n)
  }

  // ---------------------------------------------------------------- IPv4

  datatype Header4 = Header4(headerLen: nat, total: nat, offset: nat, more: bool)

  /** The option walk of `Packet::parse`. */
  predicate OptionsOk(b: seq<byte>, at: nat, h: nat)
    requires h <= |b|
    decreases h - at
  {
    if at >= h then true
    else if b[at] == 0 then forall i :: at < i < h ==> b[i] == 0
    else if b[at] == 1 then OptionsOk(b, at + 1, h)
    else at + 2 <= h && b[at + 1] >= 2 && at + b[at + 1] <= h && OptionsOk(b, at + b[at + 1], h)
  }

  function Parse4(b: seq<byte>): (r: Option<Header4>)
    ensures r.Some? ==> 20 <= r.value.headerLen <= r.value.total <= |b|
  {
    if |b| < 20 || b[0] / 16 != 4 then None
    else
      var h, n := b[0] % 16 * 4, Word(b, 2);
      if h < 20 || h > |b| || n < h || n > |b| || Internet(b[..h]) != 0 || !OptionsOk(b, 20, h) then None
      else
        var flags := Word(b, 6);
        var low := if flags >= 32768 then flags - 32768 else flags;
        var df := low >= 16384;
        var rest := if df then low - 16384 else low;
        var more := rest >= 8192;
        var offset := 8 * if more then rest - 8192 else rest;
        if flags >= 32768 || (df && (more || offset != 0)) || (more && ((n - h) % 8 != 0 || n == h))
           || offset + n - h > 65535 then None
        else Some(Header4(h, n, offset, more))
  }

  function ParseFragment4(b: seq<byte>): Result<Option<Fragment>, Error>
  {
    var p := Parse4(b);
    if p.None? || p.value.total != |b| then Err(Invalid)
    else if !p.value.more && p.value.offset == 0 then Ok(None)
    else
      var header := Put16(Put16(Put16(b[..p.value.headerLen], 2, 0), 6, 0), 10, 0);
      Ok(Some(Fragment(Key(0, b[12..16], b[16..20], b[9], Word(b, 4)), header,
                       p.value.offset, p.value.more, b[p.value.headerLen..])))
  }

  // ---------------------------------------------------------------- IPv6

  /** `envelope` for a raw IPv6 packet; the packet proper is the first `r` octets. */
  function Envelope(b: seq<byte>): (r: Option<nat>)
    ensures r.Some? ==> 40 <= r.value <= |b|
  {
    if |b| < 40 || b[0] / 16 != 6 || 40 + Word(b, 4) > |b| then None else Some(40 + Word(b, 4))
  }

  /** The extension header walk: `previous` is the octet naming the header at `at`. */
  function Walk6(b: seq<byte>, at: nat, previous: nat, rounds: nat): (r: Result<Option<Fragment>, Error>)
    requires 40 <= |b| && 40 <= at && 6 <= previous < at <= |b|
    decreases rounds
  {
    if rounds == 0 then Err(Invalid)
    else
      var next := b[previous];
      if next == 44 then
        if at + 8 > |b| || b[at + 1] != 0 then Err(Invalid)
        else
          var flags := Word(b, at + 2);
          if flags / 2 % 4 != 0 || b[at] in [0, 43, 44, 51, 60] then Err(Invalid)
          else
            var header := Put16(b[..at][previous := b[at]], 4, 0);
            Ok(Some(Fragment(Key(0, b[8..24], b[24..40], 0, Word(b, at + 4) * 65536 + Word(b, at + 6)), header,
                             flags / 8 * 8, flags % 2 == 1, b[at + 8..])))
      else if next !in [0, 43, 60, 51] then Ok(None)
      else if at + 2 > |b| then Err(Invalid)
      else
        var n := if next == 51 then (b[at + 1] as int + 2) * 4 else (b[at + 1] as int + 1) * 8;
        if at + n > |b| then Err(Invalid) else Walk6(b, at + n, at, rounds - 1)
  }

  function ParseFragment6(b: seq<byte>): Result<Option<Fragment>, Error>
  {
    var e := Envelope(b);
    if e.None? || e.value != |b| then Err(Invalid) else Walk6(b, 40, 6, 16)
  }

  /** `parse`: the fragment a packet is, if it is one. */
  function ParseFragment(b: seq<byte>): Result<Option<Fragment>, Error>
  {
    if Version(b) == 4 then ParseFragment4(b)
    else if Version(b) == 6 then ParseFragment6(b)
    else Err(Invalid)
  }

  // ---------------------------------------------------------------- completion

  /** `complete`: the packet a collected header and payload stand for. */
  function Complete(header: seq<byte>, data: seq<byte>): (r: Option<seq<byte>>)
    requires (Version(header) == 6 && |header| >= 40) || (Version(header) != 6 && |header| >= 20)
  {
    if Version(header) == 6 then
      var n := |header| - 40 + |data|;
      if n > 65535 then None else Some(Put16(header, 4, n) + data)
    else
      var n := |header| + |data|;
      if n > 65535 then None
      else
        var h := Put16(header, 2, n);
        Some(Put16(h, 10, Internet(h)) + data)
  }

  // ---------------------------------------------------------------- fragmentation

  /** Header length and per-fragment overhead of a packet that may be fragmented. */
  function Splittable(b: seq<byte>, mtu: nat): (r: Option<(nat, nat)>)
    ensures r.Some? ==> (r.value == (40, 48) && mtu >= 1280 && |b| >= 40 && Version(b) == 6 && b[6] in [6, 17, 58])
                        || (r.value == (20, 20) && mtu >= 68 && |b| >= 20 && Version(b) == 4)
  {
    if Version(b) == 6 then
      if Envelope(b).None? || b[6] !in [6, 17, 58] || mtu < 1280 then None else Some((40, 48))
    else if Version(b) == 4 then
      var p := Parse4(b);
      if p.None? || p.value.headerLen != 20 || p.value.more || p.value.offset != 0 || mtu < 68 then None
      else Some((20, 20))
    else None
  }

  /** Where fragment `i` starts: `i` times the chunk size. */
  function At(i: nat, chunk: nat): nat { if i == 0 then 0 else At(i - 1, chunk) + chunk }

  lemma AtSteps(i: nat, chunk: nat)
    ensures At(0, chunk) == 0 && At(i + 1, chunk) == At(i, chunk) + chunk
  {
  }

  lemma {:induction false} AtMonotone(i: nat, j: nat, chunk: nat)
    requires i <= j
    ensures At(i, chunk) <= At(j, chunk)
    decreases j
  {
    if i < j { AtMonotone(i, j - 1, chunk); }
  }

  /** The payload octets of fragment `i`. */
  function Chunk(payload: seq<byte>, chunk: nat, i: nat): (d: seq<byte>)
    requires chunk > 0 && At(i, chunk) <= |payload|
  {
    payload[At(i, chunk)..Min(At(i, chunk) + chunk, |payload|)]
  }

  function Bit(b: bool): nat { if b then 1 else 0 }

  function Piece6(b: seq<byte>, offset: nat, more: bool, data: seq<byte>, id: nat): (p: seq<byte>)
    requires |b| >= 40
  {
    Put16(b[..40][6 := 44], 4, |data| + 8) + [b[6], 0] + Be16(offset + Bit(more)) + Be32(id) + data
  }

  function Header4Of(b: seq<byte>, offset: nat, more: bool, size: nat, id: nat): (h: seq<byte>)
    requires |b| >= 20
    ensures |h| == 20
  {
    Put16(Put16(Put16(Put16(b[..20], 2, size + 20), 4, id), 6, offset % 65536 / 8 + 8192 * Bit(more)), 10, 0)
  }

  function Piece4(b: seq<byte>, offset: nat, more: bool, data: seq<byte>, id: nat): (p: seq<byte>)
    requires |b| >= 20
  {
    var h := Header4Of(b, offset, more, |data|, id);
    Put16(h, 10, Internet(h)) + data
  }

  function Piece(b: seq<byte>, headerLen: nat, chunk: nat, id: nat, i: nat): (p: seq<byte>)
    requires headerLen in {20, 40} && |b| >= headerLen && chunk > 0 && At(i, chunk) <= |b| - headerLen
  {
    var payload := b[headerLen..];
    var data := Chunk(payload, chunk, i);
    var more := At(i, chunk) + |data| < |payload|;
    if headerLen == 40 then Piece6(b, At(i, chunk), more, data, id) else Piece4(b, At(i, chunk), more, data, id)
  }

  /** `n` fragments are what `payload.chunks(chunk)` yields. */
  predicate IsCount(size: nat, chunk: nat, n: nat)
  {
    size <= At(n, chunk) < size + chunk
  }

  lemma PieceFits(b: seq<byte>, headerLen: nat, chunk: nat, id: nat, i: nat)
    requires headerLen in {20, 40} && |b| >= headerLen && chunk > 0 && At(i, chunk) <= |b| - headerLen
    ensures |Piece(b, headerLen, chunk, id, i)| <= chunk + if headerLen == 40 then 48 else 20
  {
    hide At, Put16, Internet;
  }

  /** Splits a packet to the egress MTU. */
  method FragmentPacket(b: seq<byte>, mtu: nat, id: nat) returns (r: Result<seq<seq<byte>>, Error>)
    ensures |b| <= mtu ==> r == Ok([b])
    ensures |b| > mtu && Splittable(b, mtu).None? ==> r == Err(Invalid)
    ensures |b| > mtu && Splittable(b, mtu).Some? ==>
              var (headerLen, overhead) := Splittable(b, mtu).value;
              var chunk := (mtu - overhead) / 8 * 8;
              && chunk > 0 && r.Ok? && IsCount(|b| - headerLen, chunk, |r.value|)
              && forall i :: 0 <= i < |r.value| ==>
                   At(i, chunk) <= |b| - headerLen && r.value[i] == Piece(b, headerLen, chunk, id, i)
    ensures r.Ok? ==> forall i :: 0 <= i < |r.value| ==> |r.value[i]| <= mtu
  {
    hide Piece4, Piece6, Piece, At, Parse4, Envelope;
    if |b| <= mtu {
      return Ok([b]);
    }
    var s := Splittable(b, mtu);
    if s.None? {
      return Err(Invalid);
    }
    var headerLen, overhead := s.value.0, s.value.1;
    var chunk := (mtu - overhead) / 8 * 8;
    var out := CutUp(b, headerLen, chunk, id);
    forall i | 0 <= i < |out|
      ensures |out[i]| <= mtu
    {
      PieceFits(b, headerLen, chunk, id, i);
    }
    return Ok(out);
  }

  /** The loop of `fragment`: one piece for each chunk of the payload. */
  method CutUp(b: seq<byte>, headerLen: nat, chunk: nat, id: nat) returns (out: seq<seq<byte>>)
    requires headerLen in {20, 40} && |b| >= headerLen && chunk > 0
    ensures IsCount(|b| - headerLen, chunk, |out|)
    ensures forall i :: 0 <= i < |out| ==>
              At(i, chunk) <= |b| - headerLen && out[i] == Piece(b, headerLen, chunk, id, i)
  {
    hide Piece4, Piece6, At;
    var payload := b[headerLen..];
    out := [];
    var offset := 0;
    AtSteps(0, chunk);
    while offset < |payload|
      invariant offset == At(|out|, chunk) < |payload| + chunk
      invariant forall i :: 0 <= i < |out| ==>
                  At(i, chunk) <= |payload| && out[i] == Piece(b, headerLen, chunk, id, i)
      decreases |payload| - offset
    {
      var data := payload[offset..Min(offset + chunk, |payload|)];
      var more := offset + |data| < |payload|;
      var p := if headerLen == 40 then Piece6(b, offset, more, data, id) else Piece4(b, offset, more, data, id);
      assert p == Piece(b, headerLen, chunk, id, |out|);
      AtSteps(|out|, chunk);
      out := out + [p];
      offset := offset + chunk;
    }
  }
}
