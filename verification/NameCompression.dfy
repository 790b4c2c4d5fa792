/** The compressing name writer and the pointer-chasing name parser of src/dns/wire.rs
    (section 4.1.4 of RFC 1035). */
module NameCompression {
  import opened Bytes
  import opened DnsName
  import opened Results

  const MAX_WORK := 262144

  datatype Error = Invalid

  /** Uncompressed wire form of a name. */
  function Wire(n: Name): (w: seq<byte>)
    requires forall i :: 0 <= i < |n| ==> |n[i]| <= 63
    ensures |w| == WireLen(n)
  {
    if n == [] then [0] else [|n[0]|] + n[0] + Wire(n[1..])
  }

  // ---------------------------------------------------------------- what stands at a position

  function Target(b: seq<byte>, pos: nat): nat
    requires pos + 1 < |b| && b[pos] >= 192
  {
    (b[pos] as int - 192) * 256 + b[pos + 1] as int
  }

  /** At `pos` stands the name `n`, spelled with exactly `h` pointers, each of them to an
      earlier known label boundary. */
  predicate Encodes(b: seq<byte>, known: seq<bool>, pos: nat, n: Name, h: nat)
    requires |known| == |b|
    decreases |n|, h
  {
    pos < |b| &&
    if b[pos] == 0 then n == [] && h == 0
    else if b[pos] <= 63 then
      && n != [] && pos + 1 + b[pos] <= |b|
      && n[0] == b[pos + 1..pos + 1 + b[pos]]
      && Encodes(b, known, pos + 1 + b[pos], n[1..], h)
    else
      && b[pos] >= 192 && h > 0 && pos + 1 < |b|
      && Target(b, pos) < pos && known[Target(b, pos)]
      && Encodes(b, known, Target(b, pos), n, h - 1)
  }

  /** The positions at which the spelling of `n` has a length octet, a pointer or the root octet. */
  function Visited(b: seq<byte>, known: seq<bool>, pos: nat, n: Name, h: nat): (v: set<nat>)
    requires |known| == |b| && Encodes(b, known, pos, n, h)
    ensures pos in v && forall i :: i in v ==> i < |b|
    decreases |n|, h
  {
    if b[pos] == 0 then {pos}
    else if b[pos] <= 63 then {pos} + Visited(b, known, pos + 1 + b[pos], n[1..], h)
    else {pos} + Visited(b, known, Target(b, pos), n, h - 1)
  }

  /** Where the part of a name that stands at `pos` itself ends: after its first pointer,
      its root octet or the first octet that cannot continue a name. */
  function InlineEnd(b: seq<byte>, pos: nat): (e: nat)
    ensures pos < |b| ==> pos < e
    decreases |b| - pos
  {
    if pos >= |b| then pos
    else if b[pos] >= 192 then pos + 2
    else if b[pos] == 0 || b[pos] > 63 then pos + 1
    else InlineEnd(b, pos + 1 + b[pos])
  }

  function Mark(known: seq<bool>, v: set<nat>): (k: seq<bool>)
    ensures |k| == |known|
  {
    seq(|known|, i requires 0 <= i < |known| => known[i] || i in v)
  }

  /** Every limit of the parser at once. */
  predicate Readable(b: seq<byte>, known: seq<bool>, work: nat, at: nat, end: nat, compressed: bool, n: Name, h: nat)
    requires |known| == |b|
  {
    && Encodes(b, known, at, n, h)
    && InlineEnd(b, at) <= end
    && (compressed || h == 0) && h <= 64
    && WireLen(n) <= 255
    && work + |n| + h + 1 <= MAX_WORK
  }

  lemma {:induction false} EncodesUnique(b: seq<byte>, known: seq<bool>, pos: nat, n: Name, h: nat, m: Name, k: nat)
    requires |known| == |b| && Encodes(b, known, pos, n, h) && Encodes(b, known, pos, m, k)
    ensures n == m && h == k
    decreases |n|, h
  {
    if 0 < b[pos] <= 63 {
      EncodesUnique(b, known, pos + 1 + b[pos], n[1..], h, m[1..], k);
      assert n == [n[0]] + n[1..] && m == [m[0]] + m[1..];
    } else if b[pos] >= 192 {
      EncodesUnique(b, known, Target(b, pos), n, h - 1, m, k - 1);
    }
  }

  lemma {:induction false} EncodesMonotone(b: seq<byte>, known: seq<bool>, known': seq<bool>, pos: nat, n: Name, h: nat)
    requires |known| == |b| == |known'| && Encodes(b, known, pos, n, h)
    requires forall i :: 0 <= i < |b| && known[i] ==> known'[i]
    ensures Encodes(b, known', pos, n, h)
    decreases |n|, h
  {
    if 0 < b[pos] <= 63 {
      EncodesMonotone(b, known, known', pos + 1 + b[pos], n[1..], h);
    } else if b[pos] >= 192 {
      EncodesMonotone(b, known, known', Target(b, pos), n, h - 1);
    }
  }

  lemma {:induction false} InlineFits(b: seq<byte>, known: seq<bool>, pos: nat, n: Name, h: nat)
    requires |known| == |b| && Encodes(b, known, pos, n, h)
    ensures InlineEnd(b, pos) <= |b|
    decreases |n|
  {
    if 0 < b[pos] <= 63 {
      InlineFits(b, known, pos + 1 + b[pos], n[1..], h);
    }
  }

  // ---------------------------------------------------------------- the parser

  /** One element of a name as the parser meets it; every octet, bound or boundary it
      refuses is `Bad`. */
  datatype Element = Bad | Root | Text(octets: Label) | Jump(target: nat)

  function ElementAt(b: seq<byte>, known: seq<bool>, pos: nat, limit: nat, compressed: bool): (e: Element)
    requires |known| == |b| && limit <= |b|
    ensures e.Text? ==> 1 <= |e.octets| <= 63
  {
    if pos + 1 > limit then Bad
    else if b[pos] == 0 then Root
    else if b[pos] <= 63 then
      if pos + 1 + b[pos] > limit then Bad else Text(b[pos + 1..pos + 1 + b[pos]])
    else if b[pos] >= 192 && compressed then
      if pos + 2 > limit || Target(b, pos) >= pos || !known[Target(b, pos)] then Bad else Jump(Target(b, pos))
    else Bad
  }

  /** The local variables of the parser's loop. */
  datatype Cursor = Cursor(pos: nat, limit: nat, consumed: Option<nat>, labels: Name, positions: set<nat>,
                           length: nat, hops: nat, work: nat)
  {
    function AfterRoot(): Cursor {
      this.(pos := pos + 1, positions := positions + {pos}, work := work + 1)
    }

    function AfterText(l: Label): Cursor {
      this.(pos := pos + 1 + |l|, labels := labels + [l], positions := positions + {pos},
            length := length + 1 + |l|, work := work + 1)
    }

    function AfterJump(target: nat, size: nat): Cursor {
      this.(pos := target, limit := size, consumed := if consumed.Some? then consumed else Some(pos + 2),
            positions := positions + {pos}, hops := hops + 1, work := work + 1)
    }

    /** Where the caller continues. */
    function End(): nat { if consumed.Some? then consumed.value else pos }
  }

  /** The loop of `Parser::name` from cursor `c` on. */
  function Scan(b: seq<byte>, known: seq<bool>, compressed: bool, c: Cursor): (r: Option<Cursor>)
    requires |known| == |b| && c.limit <= |b| && c.hops <= 64 && c.length <= 255
    decreases 64 - c.hops + 255 - c.length
  {
    if c.work >= MAX_WORK then None
    else
      match ElementAt(b, known, c.pos, c.limit, compressed)
      case Bad => None
      case Root => Some(c.AfterRoot())
      case Text(l) => if c.length + 1 + |l| > 255 then None else Scan(b, known, compressed, c.AfterText(l))
      case Jump(t) => if c.hops == 64 then None else Scan(b, known, compressed, c.AfterJump(t, |b|))
  }

  /** `n`, spelled at the cursor, still fits every limit. */
  predicate Within(b: seq<byte>, known: seq<bool>, compressed: bool, c: Cursor, n: Name, h: nat)
    requires |known| == |b|
  {
    && Encodes(b, known, c.pos, n, h) && InlineEnd(b, c.pos) <= c.limit <= |b|
    && (compressed || h == 0)
    && c.hops + h <= 64 && c.length + WireLen(n) - 1 <= 255 && c.work + |n| + h + 1 <= MAX_WORK
  }

  /** `f` is the cursor after reading all of `n` from `c` on. */
  predicate Found(b: seq<byte>, known: seq<bool>, c: Cursor, n: Name, h: nat, f: Cursor)
    requires |known| == |b| && Encodes(b, known, c.pos, n, h)
  {
    && f.labels == c.labels + n && f.hops == c.hops + h && f.work == c.work + |n| + h + 1
    && f.positions == c.positions + Visited(b, known, c.pos, n, h)
    && f.End() == if c.consumed.Some? then c.consumed.value else InlineEnd(b, c.pos)
  }

  lemma WithinText(b: seq<byte>, known: seq<bool>, compressed: bool, c: Cursor, n: Name, h: nat)
    requires |known| == |b| && Within(b, known, compressed, c, n, h) && 0 < b[c.pos] <= 63
    ensures ElementAt(b, known, c.pos, c.limit, compressed) == Text(n[0])
    ensures c.length + 1 + |n[0]| <= 255
    ensures Within(b, known, compressed, c.AfterText(n[0]), n[1..], h)
    ensures forall f :: Found(b, known, c.AfterText(n[0]), n[1..], h, f) ==> Found(b, known, c, n, h, f)
  {
    InlineGrows(b, c.pos);
    assert n == [n[0]] + n[1..];
    Assoc(c.labels, [n[0]], n[1..]);
  }

  lemma WithinJump(b: seq<byte>, known: seq<bool>, compressed: bool, c: Cursor, n: Name, h: nat)
    requires |known| == |b| && Within(b, known, compressed, c, n, h) && b[c.pos] > 63
    ensures c.pos + 1 < |b| && ElementAt(b, known, c.pos, c.limit, compressed) == Jump(Target(b, c.pos))
    ensures h > 0 && Within(b, known, compressed, c.AfterJump(Target(b, c.pos), |b|), n, h - 1)
    ensures forall f :: Found(b, known, c.AfterJump(Target(b, c.pos), |b|), n, h - 1, f) ==> Found(b, known, c, n, h, f)
  {
    InlineFits(b, known, Target(b, c.pos), n, h - 1);
  }

  /** A spelling within the limits is found, whole and with its end. */
  lemma {:induction false} ScanFinds(b: seq<byte>, known: seq<bool>, compressed: bool, c: Cursor, n: Name, h: nat)
    requires |known| == |b| && c.hops <= 64 && c.length <= 255 && Within(b, known, compressed, c, n, h)
    ensures Scan(b, known, compressed, c).Some?
    ensures Found(b, known, c, n, h, Scan(b, known, compressed, c).value)
    decreases |n|, h
  {
    if b[c.pos] == 0 {
      assert c.labels + n == c.labels;
    } else if b[c.pos] <= 63 {
      WithinText(b, known, compressed, c, n, h);
      ScanFinds(b, known, compressed, c.AfterText(n[0]), n[1..], h);
    } else {
      WithinJump(b, known, compressed, c, n, h);
      ScanFinds(b, known, compressed, c.AfterJump(Target(b, c.pos), |b|), n, h - 1);
    }
  }

  lemma InlineGrows(b: seq<byte>, pos: nat)
    requires pos < |b| && 0 < b[pos] <= 63
    ensures pos + 1 + b[pos] <= InlineEnd(b, pos)
  {
  }

  /** Whatever the loop accepts is a spelling within the limits. */
  lemma {:induction false} ScanSound(b: seq<byte>, known: seq<bool>, compressed: bool, c: Cursor) returns (n: Name, h: nat)
    requires |known| == |b| && c.limit <= |b| && c.hops <= 64 && c.length <= 255
    requires Scan(b, known, compressed, c).Some?
    ensures Within(b, known, compressed, c, n, h)
    decreases 64 - c.hops + 255 - c.length
  {
    hide ElementAt, Within, Target;
    match ElementAt(b, known, c.pos, c.limit, compressed)
    case Root =>
      n, h := [], 0;
      SoundRoot(b, known, compressed, c);
    case Text(l) =>
      var m, k := ScanSound(b, known, compressed, c.AfterText(l));
      n, h := [l] + m, k;
      SoundText(b, known, compressed, c, l, m, k);
    case Jump(t) =>
      var m, k := ScanSound(b, known, compressed, c.AfterJump(t, |b|));
      n, h := m, k + 1;
      SoundJump(b, known, compressed, c, t, m, k);
  }

  lemma SoundRoot(b: seq<byte>, known: seq<bool>, compressed: bool, c: Cursor)
    requires |known| == |b| && c.limit <= |b| && c.hops <= 64 && c.length <= 255 && c.work < MAX_WORK
    requires ElementAt(b, known, c.pos, c.limit, compressed) == Root
    ensures Within(b, known, compressed, c, [], 0)
  {
  }

  lemma SoundText(b: seq<byte>, known: seq<bool>, compressed: bool, c: Cursor, l: Label, m: Name, k: nat)
    requires |known| == |b| && c.limit <= |b| && ElementAt(b, known, c.pos, c.limit, compressed) == Text(l)
    requires Within(b, known, compressed, c.AfterText(l), m, k)
    ensures Within(b, known, compressed, c, [l] + m, k)
  {
    var n := [l] + m;
    assert n[0] == l && n[1..] == m;
  }

  lemma SoundJump(b: seq<byte>, known: seq<bool>, compressed: bool, c: Cursor, t: nat, m: Name, k: nat)
    requires |known| == |b| && c.limit <= |b| && ElementAt(b, known, c.pos, c.limit, compressed) == Jump(t)
    requires Within(b, known, compressed, c.AfterJump(t, |b|), m, k)
    ensures Within(b, known, compressed, c, m, k + 1)
  {
  }

  /** The loop accepts exactly the readable names. */
  lemma ScanExact(b: seq<byte>, known: seq<bool>, work: nat, at: nat, end: nat, compressed: bool) returns (n: Name, h: nat)
    requires |known| == |b| && end <= |b|
    ensures var r := Scan(b, known, compressed, Cursor(at, end, None, [], {}, 1, 0, work));
            if r.Some? then
              && Readable(b, known, work, at, end, compressed, n, h)
              && r.value.labels == n && r.value.hops == h && r.value.work == work + |n| + h + 1
              && r.value.positions == Visited(b, known, at, n, h) && r.value.End() == InlineEnd(b, at)
            else forall m: Name, k: nat :: !Readable(b, known, work, at, end, compressed, m, k)
  {
    var c := Cursor(at, end, None, [], {}, 1, 0, work);
    n, h := [], 0;
    if Scan(b, known, compressed, c).Some? {
      n, h := ScanSound(b, known, compressed, c);
      ScanFinds(b, known, compressed, c, n, h);
      assert c.labels + n == n;
    } else {
      forall m: Name, k: nat
        ensures !Readable(b, known, work, at, end, compressed, m, k)
      {
        if Readable(b, known, work, at, end, compressed, m, k) {
          ScanFinds(b, known, compressed, c, m, k);
        }
      }
    }
  }

  class Parser {
    const b: seq<byte>
    var known: seq<bool>
    var work: nat

    ghost predicate Valid()
      reads this
    {
      |known| == |b|
    }

    constructor (message: seq<byte>)
      ensures Valid() && b == message && work == 0
      ensures known == seq(|message|, i => false)
    {
      b := message;
      known := seq(|message|, i => false);
      work := 0;
    }

    /** Reads the name at `at`. It succeeds exactly when a name within all limits stands
        there, and then returns that name and the end of its inline part. */
    method ReadName(at: nat, end: nat, compressed: bool) returns (r: Result<Name, Error>, next: nat, ghost h: nat)
      requires Valid() && end <= |b|
      modifies this
      ensures Valid()
      ensures r.Ok? ==> Readable(b, old(known), old(work), at, end, compressed, r.value, h)
                        && next == InlineEnd(b, at)
                        && work == old(work) + |r.value| + h + 1
                        && known == Mark(old(known), Visited(b, old(known), at, r.value, h))
      ensures r.Ok? <==> Scan(b, old(known), compressed, Cursor(at, end, None, [], {}, 1, 0, old(work))).Some?
      ensures r.Err? ==> known == old(known) && next == at
      ensures r.Err? ==> forall n: Name, k: nat :: !Readable(b, old(known), old(work), at, end, compressed, n, k)
    {
      var c := Cursor(at, end, None, [], {}, 1, 0, work);
      ghost var all := Scan(b, known, compressed, c);
      ghost var n, k := ScanExact(b, known, work, at, end, compressed);
      r, next, h := Err(Invalid), at, k;
      while true
        invariant known == old(known) && c.limit <= |b| && c.hops <= 64 && c.length <= 255
        invariant Scan(b, known, compressed, c) == all
        decreases 64 - c.hops + 255 - c.length
      {
        work := c.work + 1;
        if work > MAX_WORK {
          return;
        }
        match ElementAt(b, known, c.pos, c.limit, compressed)
        case Bad =>
          return;
        case Root =>
          c := c.AfterRoot();
          break;
        case Text(l) =>
          if c.length + 1 + |l| > 255 {
            return;
          }
          c := c.AfterText(l);
        case Jump(t) =>
          if c.hops == 64 {
            return;
          }
          c := c.AfterJump(t, |b|);
      }
      known := Mark(known, c.positions);
      r, next := Ok(c.labels), c.End();
    }
  }
}
