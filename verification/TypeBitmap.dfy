/** NSEC type bitmaps: what src/dns/wire.rs accepts, src/discovery_proxy.rs and
    src/mdns/cache.rs read, and src/discovery_proxy.rs and src/mdns/publish.rs write. */
module TypeBitmap {
  import opened Bytes
  import opened Results

  /** `b >> k`. */
  function Shifted(b: nat, k: nat): nat
  {
    if k == 0 then b else Shifted(b / 2, k - 1)
  }

  /** Bit `i` from the left, as `b & (0x80 >> i) != 0` tests it. */
  predicate Bit(b: byte, i: nat)
    requires i < 8
  {
    Shifted(b, 7 - i) % 2 == 1
  }

  /** `b | 1 << k`. */
  function Raise(b: nat, k: nat): (r: nat)
  {
    if k == 0 then b - b % 2 + 1 else 2 * Raise(b / 2, k - 1) + b % 2
  }

  function Power(k: nat): nat { if k == 0 then 1 else 2 * Power(k - 1) }

  lemma {:induction false} RaiseFits(b: nat, k: nat, n: nat)
    requires k < n && b < Power(n)
    ensures 0 < Raise(b, k) < Power(n)
    decreases n
  {
    hide Power, Raise;
    PowerStep(n);
    if k == 0 {
      RaiseLow(b);
      Halves(Raise(b, 0), b, Power(n - 1));
    } else {
      Halves(b, b, Power(n - 1));
      RaiseFits(b / 2, k - 1, n - 1);
      RaiseHigh(b, k);
      Doubled(Raise(b, k), Power(n - 1));
    }
  }

  lemma PowerStep(n: nat)
    requires n > 0
    ensures Power(n) == 2 * Power(n - 1)
  {
  }

  lemma Halves(r: nat, b: nat, p: nat)
    requires b < 2 * p && r / 2 == b / 2
    ensures b / 2 < p && r < 2 * p
  {
  }

  lemma Doubled(r: nat, p: nat)
    requires 0 < r / 2 < p
    ensures 0 < r < 2 * p
  {
  }

  lemma {:induction false} RaiseSets(b: nat, k: nat, j: nat)
    ensures Shifted(Raise(b, k), j) % 2 == 1 <==> j == k || Shifted(b, j) % 2 == 1
    decreases k
  {
    if k == 0 {
      RaiseLow(b);
    } else {
      RaiseHigh(b, k);
      if j > 0 { RaiseSets(b / 2, k - 1, j - 1); }
    }
  }

  lemma RaiseLow(b: nat)
    ensures Raise(b, 0) % 2 == 1 && Raise(b, 0) / 2 == b / 2
  {
    assert Raise(b, 0) == 2 * (b / 2) + 1;
    Parity(b / 2, 1);
  }

  lemma RaiseHigh(b: nat, k: nat)
    requires k > 0
    ensures Raise(b, k) % 2 == b % 2 && Raise(b, k) / 2 == Raise(b / 2, k - 1)
  {
    RaiseStep(b, k);
    hide Raise;
    Parity(Raise(b / 2, k - 1), b % 2);
  }

  lemma RaiseStep(b: nat, k: nat)
    requires k > 0
    ensures Raise(b, k) == 2 * Raise(b / 2, k - 1) + b % 2
  {
  }

  lemma Parity(x: nat, bit: nat)
    requires bit < 2
    ensures (2 * x + bit) % 2 == bit && (2 * x + bit) / 2 == x
  {
  }

  /** `b | 0x80 >> i`. */
  function WithBit(b: byte, i: nat): (r: byte)
    requires i < 8
    ensures r != 0 && forall j: nat :: j < 8 ==> (Bit(r, j) <==> j == i || Bit(b, j))
  {
    RaiseIsByte(b, i, Raise(b, 7 - i));
    Raise(b, 7 - i)
  }

  lemma RaiseIsByte(b: byte, i: nat, r: nat)
    requires i < 8 && r == Raise(b, 7 - i)
    ensures 0 < r < 256 && forall j: nat :: j < 8 ==> (Bit(r, j) <==> j == i || Bit(b, j))
  {
    assert Power(8) == 256;
    RaiseFits(b, 7 - i, 8);
    forall j: nat | j < 8
      ensures Bit(r, j) <==> j == i || Bit(b, j)
    {
      RaiseSets(b, 7 - i, 7 - j);
    }
  }

  lemma {:induction false} ShiftsDecide(a: nat, b: nat, n: nat)
    requires a < Power(n) && b < Power(n)
    requires forall k: nat :: k < n ==> Shifted(a, k) % 2 == Shifted(b, k) % 2
    ensures a == b
    decreases n
  {
    if n > 0 {
      assert Shifted(a, 0) % 2 == Shifted(b, 0) % 2;
      forall k: nat | k < n - 1
        ensures Shifted(a / 2, k) % 2 == Shifted(b / 2, k) % 2
      {
        assert Shifted(a, k + 1) % 2 == Shifted(b, k + 1) % 2;
      }
      ShiftsDecide(a / 2, b / 2, n - 1);
    }
  }

  lemma BitsDecide(a: byte, b: byte)
    requires forall i: nat :: i < 8 ==> Bit(a, i) == Bit(b, i)
    ensures a == b
  {
    assert Power(8) == 256;
    forall k: nat | k < 8
      ensures Shifted(a, k) % 2 == Shifted(b, k) % 2
    {
      assert Bit(a, 7 - k) == Bit(b, 7 - k);
    }
    ShiftsDecide(a, b, 8);
  }

  lemma {:induction false} ZeroShifts(k: nat)
    ensures Shifted(0, k) == 0
  {
    if k > 0 { ZeroShifts(k - 1); }
  }

  lemma ZeroHasNoBits(b: byte)
    ensures b == 0 <==> forall i: nat :: i < 8 ==> !Bit(b, i)
  {
    forall i: nat | i < 8
      ensures !Bit(0, i)
    {
      ZeroShifts(7 - i);
    }
    if forall i: nat :: i < 8 ==> !Bit(b, i) { BitsDecide(b, 0); }
  }

  // ---------------------------------------------------------------- the format

  /** The first block is complete: a window, a length and that many octets of bits. */
  predicate Whole(b: seq<byte>) { |b| >= 2 && |b| - 2 >= b[1] }

  function Window(b: seq<byte>): nat
    requires Whole(b)
  {
    b[0]
  }

  function Size(b: seq<byte>): nat
    requires Whole(b)
  {
    2 + b[1] as int
  }

  function Bits(b: seq<byte>): seq<byte>
    requires Whole(b)
  {
    b[2..Size(b)]
  }

  function Rest(b: seq<byte>): seq<byte>
    requires Whole(b)
  {
    b[Size(b)..]
  }

  predicate BitsOk(bits: seq<byte>) { 1 <= |bits| <= 32 && bits[|bits| - 1] != 0 }

  /** A list of blocks with windows rising from `low` to below `high`; each has 1 to 32 octets
      of bits, the last of them not zero. */
  predicate Valid(b: seq<byte>, low: nat, high: nat)
    decreases |b|
  {
    b == [] || (Whole(b) && low <= Window(b) < high && BitsOk(Bits(b)) && Valid(Rest(b), Window(b) + 1, high))
  }

  /** The types of one block. */
  predicate InBlock(window: nat, bits: seq<byte>, t: nat)
  {
    t / 256 == window && t % 256 / 8 < |bits| && Bit(bits[t % 256 / 8], t % 8)
  }

  function BlockTypes(window: nat, bits: seq<byte>): set<nat>
  {
    set t: nat | t < 65536 && InBlock(window, bits, t)
  }

  /** The types a bitmap lists: the reference meaning. */
  function Types(b: seq<byte>): (types: set<nat>)
    ensures forall t :: t in types ==> t < 65536
    decreases |b|
  {
    if !Whole(b) then {} else BlockTypes(Window(b), Bits(b)) + Types(Rest(b))
  }

  predicate Accepted(b: seq<byte>) { Valid(b, 0, 256) }

  lemma {:induction false} ListedWindow(b: seq<byte>, low: nat, high: nat)
    requires Valid(b, low, high)
    ensures forall t :: t in Types(b) ==> low <= t / 256 < high
    decreases |b|
  {
    if b != [] { ListedWindow(Rest(b), Window(b) + 1, high); }
  }

  /** A block lists something: its last octet is not zero. */
  lemma LastListed(window: nat, bits: seq<byte>) returns (t: nat)
    requires BitsOk(bits)
    ensures InBlock(window, bits, t) && t % 256 / 8 == |bits| - 1
  {
    ZeroHasNoBits(bits[|bits| - 1]);
    var i: nat :| i < 8 && Bit(bits[|bits| - 1], i);
    t := window * 256 + (|bits| - 1) * 8 + i;
    Position(window, |bits| - 1, i);
  }

  lemma Position(window: nat, octet: nat, i: nat)
    requires octet < 32 && i < 8
    ensures var t := window * 256 + octet * 8 + i; t / 256 == window && t % 256 / 8 == octet && t % 8 == i
  {
    By256(window, octet * 8 + i);
    By8(octet, i);
    By8(window * 32 + octet, i);
  }

  lemma By256(q: nat, r: nat)
    requires r < 256
    ensures (q * 256 + r) / 256 == q && (q * 256 + r) % 256 == r
  {
  }

  lemma By8(q: nat, r: nat)
    requires r < 8
    ensures (q * 8 + r) / 8 == q && (q * 8 + r) % 8 == r
  {
  }

  /** Blocks of one window that list the same types are equal. */
  lemma BlockUnique(window: nat, a: seq<byte>, b: seq<byte>)
    requires window < 256 && BitsOk(a) && BitsOk(b) && BlockTypes(window, a) == BlockTypes(window, b)
    ensures a == b
  {
    var s := LastListed(window, a);
    var t := LastListed(window, b);
    assert s in BlockTypes(window, b) && t in BlockTypes(window, a);
    forall k | 0 <= k < |a|
      ensures a[k] == b[k]
    {
      SameOctet(window, a, b, k);
    }
  }

  lemma SameOctet(window: nat, a: seq<byte>, b: seq<byte>, k: nat)
    requires window < 256 && k < |a| == |b| <= 32 && BlockTypes(window, a) == BlockTypes(window, b)
    ensures a[k] == b[k]
  {
    hide Bit;
    forall i: nat | i < 8
      ensures Bit(a[k], i) == Bit(b[k], i)
    {
      var t := window * 256 + k * 8 + i;
      Position(window, k, i);
      assert t in BlockTypes(window, a) <==> t in BlockTypes(window, b);
    }
    BitsDecide(a[k], b[k]);
  }

  /** A valid bitmap is the only one that lists its types. */
  lemma {:induction false} BitmapUnique(a: seq<byte>, b: seq<byte>, low: nat, high: nat)
    requires Valid(a, low, high) && Valid(b, low, high) && high <= 256 && Types(a) == Types(b)
    ensures a == b
    decreases |a|
  {
    hide BlockTypes, Block;
    FirstBlock(a, low, high);
    FirstBlock(b, low, high);
    if a != [] && b != [] {
      BlockUnique(Window(a), Bits(a), Bits(b));
      BitmapUnique(Rest(a), Rest(b), Window(a) + 1, high);
      Blocks(a);
      Blocks(b);
    }
  }

  function Block(window: nat, bits: seq<byte>): (b: seq<byte>)
    requires window < 256 && |bits| <= 255
    ensures Whole(b) && Window(b) == window && Bits(b) == bits && Rest(b) == []
  {
    [window, |bits|] + bits
  }

  lemma Blocks(b: seq<byte>)
    requires Whole(b)
    ensures b == Block(Window(b), Bits(b)) + Rest(b)
  {
  }

  /** The first block holds the types of the lowest window, and there is one. */
  lemma FirstBlock(b: seq<byte>, low: nat, high: nat)
    requires Valid(b, low, high) && high <= 256
    ensures b == [] <==> Types(b) == {}
    ensures b != [] ==> && BlockTypes(Window(b), Bits(b)) == (set t | t in Types(b) && t / 256 == Window(b))
                        && Types(Rest(b)) == (set t | t in Types(b) && t / 256 != Window(b))
                        && (exists t :: t in Types(b) && t / 256 == Window(b))
                        && (forall t :: t in Types(b) ==> t / 256 >= Window(b))
  {
    if b != [] {
      var t := LastListed(Window(b), Bits(b));
      assert t in BlockTypes(Window(b), Bits(b));
      ListedWindow(Rest(b), Window(b) + 1, high);
    }
  }

  /** Two accepted bitmaps that read to the same set are the same octets. */
  lemma Canonical(a: seq<byte>, b: seq<byte>)
    requires Accepted(a) && Accepted(b) && Types(a) == Types(b)
    ensures a == b
  {
    BitmapUnique(a, b, 0, 256);
  }

  /** One list of blocks after another. */
  lemma {:induction false} Append(a: seq<byte>, c: seq<byte>, low: nat, mid: nat, high: nat)
    requires Valid(a, low, mid) && Valid(c, mid, high) && low <= mid <= high
    ensures Valid(a + c, low, high) && Types(a + c) == Types(a) + Types(c)
    decreases |a|
  {
    hide BlockTypes, BitsOk, Bits, Rest, Window;
    if a == [] {
      assert a + c == c;
    } else {
      Longer(a, c);
      Append(Rest(a), c, Window(a) + 1, mid, high);
      var x, y, z := BlockTypes(Window(a), Bits(a)), Types(Rest(a)), Types(c);
      assert x + y + z == x + (y + z);
    }
  }

  lemma Longer(a: seq<byte>, c: seq<byte>)
    requires Whole(a)
    ensures Whole(a + c) && Window(a + c) == Window(a) && Bits(a + c) == Bits(a) && Rest(a + c) == Rest(a) + c
    ensures |Rest(a)| < |a| && a != []
  {
  }

  // ---------------------------------------------------------------- readers

  /** `bitmap_valid`. */
  method BitmapValid(b: seq<byte>) returns (ok: bool)
    ensures ok <==> Accepted(b)
  {
    hide Valid;
    var at: nat, low: nat := 0, 0;
    assert b[0..] == b;
    while at < |b|
      invariant at <= |b| && low <= 256
      invariant Accepted(b) <==> Valid(b[at..], low, 256)
      decreases |b| - at
    {
      ValidAt(b, at, low);
      if at + 1 >= |b| { return false; }
      var w, n := b[at] as int, b[at + 1] as int;
      if n == 0 || n > 32 || w < low || at + 2 + n > |b| { return false; }
      if b[at + 1 + n] == 0 { return false; }
      low := w + 1;
      at := at + 2 + n;
    }
    ValidAt(b, at, low);
    return true;
  }

  /** The rest of a bitmap is valid if its first block is, and what follows that. */
  lemma ValidAt(b: seq<byte>, at: nat, low: nat)
    requires at <= |b|
    ensures Valid(b[at..], low, 256) <==>
              at == |b|
              || (&& at + 2 <= |b| && low <= b[at] && 1 <= b[at + 1] <= 32 && |b| - 2 - b[at + 1] as int >= at
                  && b[at + 1 + b[at + 1] as int] != 0 && Valid(b[at + 2 + b[at + 1] as int..], b[at] as int + 1, 256))
  {
    if at + 2 <= |b| && |b| - 2 - b[at + 1] as int >= at { BlockAt(b, at); }
  }

  lemma NothingListed()
    ensures Types([]) == {}
  {
  }

  /** What one turn of the search relies on. */
  lemma BlockHas(b: seq<byte>, low: nat, kind: nat)
    requires Valid(b, low, 256) && b != [] && kind <= U16_MAX
    ensures Window(b) == kind / 256 ==>
              (kind in Types(b) <==> kind % 256 / 8 < |Bits(b)| && Bit(Bits(b)[kind % 256 / 8], kind % 256 % 8))
    ensures Window(b) != kind / 256 ==> (kind in Types(b) <==> kind in Types(Rest(b)))
  {
    FirstBlock(b, low, 256);
  }

  /** `bitmap_has` is membership in every accepted bitmap. */
  method BitmapHas(b: seq<byte>, kind: nat) returns (has: bool)
    requires kind <= U16_MAX
    ensures Accepted(b) ==> (has <==> kind in Types(b))
  {
    hide Bit, Types, BlockTypes, InBlock;
    var rest := b;
    ghost var low: nat := 0;
    while |rest| >= 2
      invariant Accepted(b) ==> Valid(rest, low, 256) && (kind in Types(b) <==> kind in Types(rest))
      decreases |rest|
    {
      var n := rest[1] as int;
      if n == 0 || n > 32 || |rest| < n + 2 { return false; }
      if Accepted(b) { BlockHas(rest, low, kind); }
      if rest[0] == kind / 256 {
        var bit := kind % 256;
        return bit / 8 < n && Bit(rest[2 + bit / 8], bit % 8);
      }
      low := rest[0] as int + 1;
      rest := rest[2 + n..];
    }
    NothingListed();
    return false;
  }

  const TYPE_CAP := 1024

  function Wanted(types: set<nat>, accept: nat -> bool): set<nat>
  {
    set t | t in types && accept(t)
  }

  /** `read_bitmap` with `insert_type`: every listed and accepted type is added, and the call
      fails exactly on a malformed bitmap or when more than 1024 types would be held. */
  method ReadBitmap(b: seq<byte>, held: set<nat>, accept: nat -> bool) returns (r: Result<set<nat>, ()>)
    requires |held| <= TYPE_CAP
    ensures r.Ok? <==> Accepted(b) && |held + Wanted(Types(b), accept)| <= TYPE_CAP
    ensures r.Ok? ==> r.value == held + Wanted(Types(b), accept)
  {
    hide Types, BlockTypes, InBlock, Bit;
    var types, at: nat, low: nat := held, 0, 0;
    NothingListed();
    ghost var goal := held + Wanted(Types(b), accept);
    while at < |b|
      invariant at <= |b| && low <= 256 && |types| <= TYPE_CAP
      invariant goal == types + Wanted(Types(b[at..]), accept)
      invariant Accepted(b) <==> Valid(b[at..], low, 256)
      decreases |b| - at
    {
      if at + 1 >= |b| { return Err(()); }
      var w, n := b[at] as int, b[at + 1] as int;
      if n == 0 || n > 32 || w < low || at + 2 + n > |b| { return Err(()); }
      var bits := b[at + 2..at + 2 + n];
      if bits[n - 1] == 0 { return Err(()); }
      BlockAt(b, at);
      UnfoldTypes(b[at..]);
      WantedUnion(types, BlockTypes(w, bits), Types(b[at + 2 + n..]), accept);
      SubsetSize(types + Wanted(BlockTypes(w, bits), accept), goal);
      var added := AddBlock(w, bits, types, accept);
      if added.Err? { return added; }
      types := added.value;
      low := w + 1;
      at := at + 2 + n;
    }
    return Ok(types);
  }

  lemma BlockAt(b: seq<byte>, at: nat)
    requires at + 2 <= |b| && at + 2 + b[at + 1] as int <= |b|
    ensures Whole(b[at..]) && Window(b[at..]) == b[at]
    ensures Bits(b[at..]) == b[at + 2..at + 2 + b[at + 1] as int] && Rest(b[at..]) == b[at + 2 + b[at + 1] as int..]
    ensures 1 <= |Bits(b[at..])| <= 32 && Bits(b[at..])[|Bits(b[at..])| - 1] != 0 ==> BitsOk(Bits(b[at..]))
  {
  }

  lemma UnfoldTypes(b: seq<byte>)
    requires Whole(b)
    ensures Types(b) == BlockTypes(Window(b), Bits(b)) + Types(Rest(b))
  {
  }

  lemma WantedUnion(s: set<nat>, a: set<nat>, b: set<nat>, accept: nat -> bool)
    ensures s + Wanted(a + b, accept) == s + Wanted(a, accept) + Wanted(b, accept)
  {
  }

  /** `insert_type`. */
  method InsertType(types: set<nat>, kind: nat) returns (r: Result<set<nat>, ()>)
    requires |types| <= TYPE_CAP
    ensures r.Ok? <==> |types + {kind}| <= TYPE_CAP
    ensures r.Ok? ==> r.value == types + {kind}
  {
    if |types| == TYPE_CAP && kind !in types { return Err(()); }
    if kind in types { assert types + {kind} == types; }
    return Ok(types + {kind});
  }

  /** The two inner loops of `read_bitmap`. */
  method AddBlock(window: nat, bits: seq<byte>, held: set<nat>, accept: nat -> bool) returns (r: Result<set<nat>, ()>)
    requires window < 256 && |bits| <= 32 && |held| <= TYPE_CAP
    ensures r.Ok? <==> |held + Wanted(BlockTypes(window, bits), accept)| <= TYPE_CAP
    ensures r.Ok? ==> r.value == held + Wanted(BlockTypes(window, bits), accept)
  {
    hide BlockTypes, Bit, Wanted, Left;
    var types := held;
    ghost var goal := held + Wanted(BlockTypes(window, bits), accept);
    LeftEnds(window, bits, accept);
    for i := 0 to |bits|
      invariant types + Left(window, bits, accept, i * 8) == goal && |types| <= TYPE_CAP
    {
      var added := AddOctet(window, bits, i, types, accept, goal);
      if added.Err? { return added; }
      types := added.value;
    }
    return Ok(types);
  }

  method AddOctet(window: nat, bits: seq<byte>, i: nat, held: set<nat>, accept: nat -> bool, ghost goal: set<nat>)
    returns (r: Result<set<nat>, ()>)
    requires window < 256 && i < |bits| <= 32 && |held| <= TYPE_CAP && held + Left(window, bits, accept, i * 8) == goal
    ensures r.Err? ==> |goal| > TYPE_CAP
    ensures r.Ok? ==> |r.value| <= TYPE_CAP && r.value + Left(window, bits, accept, (i + 1) * 8) == goal
  {
    hide Bit, Left;
    var types := held;
    for bit := 0 to 8
      invariant types + Left(window, bits, accept, i * 8 + bit) == goal && |types| <= TYPE_CAP
    {
      var kind := window * 256 + (i * 8 + bit);
      ghost var rest := Left(window, bits, accept, i * 8 + bit + 1);
      LeftStep(window, bits, accept, i, bit);
      if Bit(bits[i], bit) && accept(kind) {
        OneIn(types, kind, rest, goal);
        var added := InsertType(types, kind);
        if added.Err? { return added; }
        types := added.value;
      } else {
        assert {} + rest == rest;
      }
    }
    return Ok(types);
  }

  lemma OneIn(types: set<nat>, kind: nat, rest: set<nat>, goal: set<nat>)
    requires types + ({kind} + rest) == goal
    ensures types + {kind} + rest == goal && |types + {kind}| <= |goal|
  {
    SubsetSize(types + {kind}, goal);
  }

  /** The wanted types from bit `k` of a block on. */
  ghost function Left(window: nat, bits: seq<byte>, accept: nat -> bool, k: nat): set<nat>
  {
    set t | t in BlockTypes(window, bits) && accept(t) && t >= window * 256 + k
  }

  lemma LeftEnds(window: nat, bits: seq<byte>, accept: nat -> bool)
    requires |bits| <= 32
    ensures Left(window, bits, accept, 0) == Wanted(BlockTypes(window, bits), accept)
    ensures Left(window, bits, accept, |bits| * 8) == {}
  {
    forall t | t in BlockTypes(window, bits)
      ensures window * 256 <= t < window * 256 + |bits| * 8
    {
    }
  }

  lemma LeftStep(window: nat, bits: seq<byte>, accept: nat -> bool, i: nat, bit: nat)
    requires window < 256 && i < |bits| <= 32 && bit < 8
    ensures var kind := window * 256 + (i * 8 + bit);
            Left(window, bits, accept, i * 8 + bit)
            == (if Bit(bits[i], bit) && accept(kind) then {kind} else {}) + Left(window, bits, accept, i * 8 + bit + 1)
  {
    hide Bit;
    Position(window, i, bit);
  }

  // ---------------------------------------------------------------- writers

  function InWindow(types: set<nat>, w: nat): set<nat> { set t | t in types && t / 256 == w }

  function Below(types: set<nat>, w: nat): set<nat> { set t | t in types && t / 256 < w }

  lemma BelowGrows(types: set<nat>, w: nat)
    ensures Below(types, w + 1) == Below(types, w) + InWindow(types, w)
  {
  }

  /** Adding the block of the next window, if it has any types, to the blocks below it. */
  lemma NextBlock(out: seq<byte>, types: set<nat>, w: nat, bits: seq<byte>)
    requires w < 256 && Valid(out, 0, w) && Types(out) == Below(types, w)
    requires BitsOk(bits) && BlockTypes(w, bits) == InWindow(types, w)
    ensures Valid(out + Block(w, bits), 0, w + 1) && Types(out + Block(w, bits)) == Below(types, w + 1)
  {
    hide BlockTypes, InWindow, Below;
    BelowGrows(types, w);
    NothingListed();
    UnfoldTypes(Block(w, bits));
    Append(out, Block(w, bits), 0, w, w + 1);
  }

  lemma {:induction false} Higher(out: seq<byte>, low: nat, w: nat)
    requires Valid(out, low, w)
    ensures Valid(out, low, w + 1)
    decreases |out|
  {
    if out != [] { Higher(Rest(out), Window(out) + 1, w); }
  }

  lemma EmptyWindow(out: seq<byte>, types: set<nat>, w: nat)
    requires Valid(out, 0, w) && Types(out) == Below(types, w) && InWindow(types, w) == {}
    ensures Valid(out, 0, w + 1) && Types(out) == Below(types, w + 1)
  {
    Higher(out, 0, w);
    BelowGrows(types, w);
  }

  lemma AllBelow(types: set<nat>)
    requires forall t :: t in types ==> t <= U16_MAX
    ensures Below(types, 0) == {} && Below(types, 256) == types
  {
  }

  /** One bit per type, 65536 of them. */
  ghost predicate Marks(b: seq<byte>, types: set<nat>)
  {
    |b| == 8192 && forall t: nat :: t < 65536 ==> (Bit(b[t / 8], t % 8) <==> t in types)
  }

  lemma MarksNone(b: seq<byte>)
    requires |b| == 8192 && forall i :: 0 <= i < 8192 ==> b[i] == 0
    ensures Marks(b, {})
  {
    ZeroHasNoBits(0);
  }

  lemma MarksOneMore(b: seq<byte>, types: set<nat>, t: nat)
    requires Marks(b, types) && t < 65536
    ensures Marks(b[t / 8 := WithBit(b[t / 8], t % 8)], types + {t})
  {
    hide Bit;
    var c := b[t / 8 := WithBit(b[t / 8], t % 8)];
    forall u: nat | u < 65536
      ensures Bit(c[u / 8], u % 8) <==> u in types + {t}
    {
      assert Bit(b[u / 8], u % 8) <==> u in types;
      if u / 8 == t / 8 { assert u == t <==> u % 8 == t % 8; }
    }
  }

  lemma ChunkTypes(b: seq<byte>, types: set<nat>, w: nat, n: nat)
    requires Marks(b, types) && w < 256 && n <= 32 && forall t :: t in types ==> t <= U16_MAX
    requires forall j :: w * 32 + n <= j < w * 32 + 32 ==> b[j] == 0
    ensures BlockTypes(w, b[w * 32..w * 32 + n]) == InWindow(types, w)
  {
    hide Bit;
    var bits := b[w * 32..w * 32 + n];
    forall t: nat | t < 65536
      ensures InBlock(w, bits, t) <==> t in InWindow(types, w)
    {
      assert Bit(b[t / 8], t % 8) <==> t in types;
      if t / 256 == w {
        assert t / 8 == w * 32 + t % 256 / 8;
        ZeroHasNoBits(0);
        if t % 256 / 8 < n { assert bits[t % 256 / 8] == b[t / 8]; } else { assert b[w * 32 + t % 256 / 8] == 0; }
      }
    }
  }

  /** `type_bitmap`. */
  method EncodeTypes(types: set<nat>) returns (out: seq<byte>)
    requires forall t :: t in types ==> t <= U16_MAX
    ensures Accepted(out) && Types(out) == types
  {
    hide Bit, Marks, BlockTypes, Below, InWindow, Valid, Types, WithBit;
    var bits := MarkAll(types);
    AllBelow(types);
    NothingListed();
    out := [];
    EmptyIsValid();
    for w := 0 to 256
      invariant Valid(out, 0, w) && Types(out) == Below(types, w)
    {
      var n := LastMarked(bits, w);
      ChunkTypes(bits, types, w, n);
      if n > 0 {
        NextBlock(out, types, w, bits[w * 32..w * 32 + n]);
        out := out + Block(w, bits[w * 32..w * 32 + n]);
      } else {
        assert bits[w * 32..w * 32 + n] == [];
        NoBits(w);
        EmptyWindow(out, types, w);
      }
    }
  }

  lemma EmptyIsValid()
    ensures Valid([], 0, 0)
  {
  }

  lemma NoBits(w: nat)
    ensures BlockTypes(w, []) == {}
  {
  }

  method MarkAll(types: set<nat>) returns (r: seq<byte>)
    requires forall t :: t in types ==> t <= U16_MAX
    ensures Marks(r, types) && |r| == 8192
  {
    hide Marks, Bit, WithBit;
    var bits := new byte[8192](_ => 0);
    var left := types;
    MarksNone(bits[..]);
    MarksLength();
    assert types - left == {};
    while left != {}
      invariant left <= types && Marks(bits[..], types - left)
      decreases |left|
    {
      var t :| t in left;
      MarksOneMore(bits[..], types - left, t);
      ghost var was := bits[..];
      bits[t / 8] := WithBit(bits[t / 8], t % 8);
      assert bits[..] == was[t / 8 := WithBit(was[t / 8], t % 8)];
      assert types - (left - {t}) == types - left + {t};
      left := left - {t};
    }
    assert types - left == types;
    r := bits[..];
  }

  lemma MarksLength()
    ensures forall b, s :: Marks(b, s) ==> |b| == 8192
  {
  }

  /** One past the last octet of a window that is not zero. */
  method LastMarked(b: seq<byte>, w: nat) returns (n: nat)
    requires |b| == 8192 && w < 256
    ensures n <= 32 && (n > 0 ==> b[w * 32 + n - 1] != 0)
    ensures forall j :: w * 32 + n <= j < w * 32 + 32 ==> b[j] == 0
  {
    n := 32;
    while n > 0 && b[w * 32 + n - 1] == 0
      invariant n <= 32 && forall j :: w * 32 + n <= j < w * 32 + 32 ==> b[j] == 0
    {
      n := n - 1;
    }
  }

  /** The blocks of the publisher's builder: one per window that has types, cut after its last
      octet. */
  ghost predicate Collected(blocks: map<nat, seq<byte>>, types: set<nat>)
  {
    && (forall w :: w in blocks ==> w < 256 && BitsOk(blocks[w]) && BlockTypes(w, blocks[w]) == InWindow(types, w))
    && (forall t :: t in types ==> t / 256 in blocks)
  }

  /** `b.resize(b.len().max(n), 0)`. */
  function Padded(b: seq<byte>, n: nat): (r: seq<byte>)
    ensures |r| == if |b| < n then n else |b|
    ensures forall i :: 0 <= i < |r| ==> r[i] == if i < |b| then b[i] else 0
  {
    b + seq(if |b| < n then n - |b| else 0, i => 0)
  }

  function OneMore(b: seq<byte>, kind: nat): (r: seq<byte>)
  {
    var at := kind % 256 / 8;
    var p := Padded(b, at + 1);
    p[at := WithBit(p[at], kind % 8)]
  }

  lemma OneMoreTypes(w: nat, b: seq<byte>, kind: nat)
    requires w < 256 && kind / 256 == w && (b == [] || BitsOk(b))
    ensures BitsOk(OneMore(b, kind)) && BlockTypes(w, OneMore(b, kind)) == BlockTypes(w, b) + {kind}
  {
    hide Bit;
    var r := OneMore(b, kind);
    ZeroHasNoBits(0);
    forall t: nat | t < 65536
      ensures InBlock(w, r, t) <==> InBlock(w, b, t) || t == kind
    {
      if t / 256 == w && t % 256 / 8 == kind % 256 / 8 {
        assert t == kind <==> t % 8 == kind % 8;
      }
    }
  }

  lemma CollectOne(blocks: map<nat, seq<byte>>, types: set<nat>, kind: nat)
    requires Collected(blocks, types) && kind <= U16_MAX
    ensures var w := kind / 256;
            Collected(blocks[w := OneMore(if w in blocks then blocks[w] else [], kind)], types + {kind})
  {
    hide BlockTypes, BitsOk, OneMore;
    var w := kind / 256;
    var b := if w in blocks then blocks[w] else [];
    NoBits(w);
    OneMoreTypes(w, b, kind);
    assert BlockTypes(w, b) == InWindow(types, w);
    forall v
      ensures InWindow(types + {kind}, v) == if v == w then InWindow(types, v) + {kind} else InWindow(types, v)
    {
    }
  }

  /** The NSEC bitmap builder of `Prepared::new`, from the kinds of a name's records. */
  method PublisherBitmap(kinds: seq<nat>) returns (out: seq<byte>)
    requires forall k: nat :: k in kinds ==> k <= U16_MAX
    ensures Accepted(out) && Types(out) == set k | k in kinds && k != 47
  {
    hide Collected, Below, InWindow, BlockTypes, Valid, Types, OneMore;
    var blocks := map[];
    ghost var types := {};
    CollectedNone();
    for i := 0 to |kinds|
      invariant Collected(blocks, types) && types == set k | k in kinds[..i] && k != 47
    {
      var kind := kinds[i];
      assert kind in kinds;
      if kind != 47 {
        CollectOne(blocks, types, kind);
        var b := if kind / 256 in blocks then blocks[kind / 256] else [];
        blocks := blocks[kind / 256 := OneMore(b, kind)];
        types := types + {kind};
      }
      assert kinds[..i + 1] == kinds[..i] + [kind];
    }
    assert kinds[..|kinds|] == kinds;
    AllBelow(types);
    NothingListed();
    EmptyIsValid();
    out := [];
    for w := 0 to 256
      invariant Valid(out, 0, w) && Types(out) == Below(types, w)
    {
      CollectedAt(blocks, types, w);
      if w in blocks {
        NextBlock(out, types, w, blocks[w]);
        out := out + Block(w, blocks[w]);
      } else {
        EmptyWindow(out, types, w);
      }
    }
  }

  lemma CollectedNone()
    ensures Collected(map[], {})
  {
  }

  lemma CollectedAt(blocks: map<nat, seq<byte>>, types: set<nat>, w: nat)
    requires Collected(blocks, types)
    ensures w in blocks ==> BitsOk(blocks[w]) && BlockTypes(w, blocks[w]) == InWindow(types, w)
    ensures w !in blocks ==> InWindow(types, w) == {}
  {
  }

  /** Both writers give the same octets, and an accepted bitmap is what they write for it. */
  method WritersAgree(kinds: seq<nat>, b: seq<byte>) returns (proxy: seq<byte>, publisher: seq<byte>, again: seq<byte>)
    requires (forall k :: k in kinds ==> k <= U16_MAX) && Accepted(b)
    ensures proxy == publisher && Accepted(proxy) && again == b
  {
    proxy := EncodeTypes(set k | k in kinds && k != 47);
    publisher := PublisherBitmap(kinds);
    Canonical(proxy, publisher);
    again := EncodeTypes(Types(b));
    Canonical(again, b);
  }
}
