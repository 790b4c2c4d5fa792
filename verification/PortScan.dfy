/** The bounded search for a translation port (`Bindings::allocate`, src/nat64/bindings.rs). */
module PortScan {
  import opened Bytes
  import opened Results
  import opened Ports

  const SCAN_LIMIT := 8192

  predicate Free(protocol: nat, busy: set<Port>, occupied: set<nat>, number: nat)
  {
    Port(protocol, number) !in busy && number !in occupied
  }

  /** The numbers of one protocol that are not free. */
  ghost function Taken(protocol: nat, busy: set<Port>, occupied: set<nat>): (s: set<nat>)
  {
    (set q | q in busy && q.protocol == protocol :: q.number) + occupied
  }

  lemma TakenOrFree(protocol: nat, busy: set<Port>, occupied: set<nat>, number: nat)
    ensures Free(protocol, busy, occupied, number) <==> number !in Taken(protocol, busy, occupied)
  {
    if Port(protocol, number) in busy {
      assert number in (set q | q in busy && q.protocol == protocol :: q.number);
    }
  }

  /** A range of ports of one parity: first number and how many there are. */
  function First(high: bool, parity: nat): nat
  {
    if high then 1024 + parity else if parity == 0 then 2 else 1
  }

  function Size(high: bool, parity: nat): (n: nat)
    ensures n > 0
  {
    if high then 32256 else if parity == 0 then 511 else 512
  }

  function Candidate(first: nat, size: nat, start: nat, n: nat): (c: nat)
    requires size > 0
    ensures first <= c <= first + 2 * (size - 1) && c % 2 == first % 2
  {
    first + (start + n) % size * 2
  }

  lemma ModOnce(a: nat, m: nat)
    requires 0 < m && a < 2 * m
    ensures a % m == if a < m then a else a - m
  {
    if a >= m {
      var q := a / m;
      assert a == q * m + a % m;
      MulBounds(q, m, a);
    }
  }

  lemma MulBounds(q: int, m: nat, a: nat)
    requires 0 < m <= a < 2 * m && 0 <= a - q * m < m
    ensures q == 1
  {
    if q >= 2 {
      assert q * m == 2 * m + (q - 2) * m;
      NonNegative(q - 2, m);
    } else if q <= 0 {
      assert q * m == -((-q) * m);
      NonNegative(-q, m);
    }
  }

  lemma NonNegative(q: nat, m: nat)
    ensures q * m >= 0
  {
  }

  lemma CandidatesDiffer(first: nat, size: nat, start: nat, m: nat, n: nat)
    requires m < n < size && start < size
    ensures Candidate(first, size, start, m) != Candidate(first, size, start, n)
  {
    ModOnce(start + m, size);
    ModOnce(start + n, size);
  }

  lemma {:induction false} CandidateCount(first: nat, size: nat, start: nat, n: nat, taken: set<nat>)
    requires 0 < size && start < size && n <= size
    requires forall m :: 0 <= m < n ==> Candidate(first, size, start, m) in taken
    ensures |taken| >= n
    decreases n
  {
    if n > 0 {
      var c := Candidate(first, size, start, n - 1);
      forall m | 0 <= m < n - 1
        ensures Candidate(first, size, start, m) in taken - {c}
      {
        CandidatesDiffer(first, size, start, m, n - 1);
      }
      CandidateCount(first, size, start, n - 1, taken - {c});
    }
  }

  /** One inner loop: at most 8192 candidates from a random start. It fails only if as many
      numbers are taken as it looked at. */
  method ScanRange(protocol: nat, busy: set<Port>, occupied: set<nat>, high: bool, parity: nat, start: nat) returns (r: Option<nat>)
    requires parity < 2 && start < Size(high, parity)
    ensures r.Some? ==> Free(protocol, busy, occupied, r.value) && 0 < r.value <= U16_MAX
                        && r.value % 2 == parity && (r.value >= 1024 <==> high)
    ensures r.None? ==> |Taken(protocol, busy, occupied)| >= Min(Size(high, parity), SCAN_LIMIT)
  {
    var first, size := First(high, parity), Size(high, parity);
    ghost var taken := Taken(protocol, busy, occupied);
    var n := 0;
    while n < Min(size, SCAN_LIMIT)
      invariant 0 <= n <= Min(size, SCAN_LIMIT)
      invariant forall m :: 0 <= m < n ==> Candidate(first, size, start, m) in taken
    {
      var c := Candidate(first, size, start, n);
      TakenOrFree(protocol, busy, occupied, c);
      if Free(protocol, busy, occupied, c) {
        return Some(c);
      }
      n := n + 1;
    }
    CandidateCount(first, size, start, n, taken);
    return None;
  }

  predicate DrawsOk(port: nat, draws: seq<nat>)
  {
    && |draws| == 4
    && forall i :: 0 <= i < 4 ==> draws[i] < Size(RangeHigh(port, i), RangeParity(port, i))
  }

  /** The four ranges in the order they are tried: own range before the other, own parity first. */
  function RangeHigh(port: nat, i: nat): bool { if i < 2 then port >= 1024 else port < 1024 }

  function RangeParity(port: nat, i: nat): (p: nat)
    ensures p < 2
  {
    if i % 2 == 0 then port % 2 else 1 - port % 2
  }

  /** Picks a free port: the requested one if possible, else one found by scanning. With fewer
      than 8192 numbers taken it cannot fail, and for requests of 1024 and above it then stays
      in the same range and parity. */
  method Allocate(protocol: nat, port: nat, draws: seq<nat>, busy: set<Port>, occupied: set<nat>) returns (r: Option<nat>)
    requires port <= U16_MAX && DrawsOk(port, draws)
    ensures r.Some? ==> Free(protocol, busy, occupied, r.value) && r.value <= U16_MAX && (protocol == 1 || r.value != 0)
    ensures (port != 0 || protocol == 1) && Free(protocol, busy, occupied, port) ==> r == Some(port)
    ensures r.None? ==> |Taken(protocol, busy, occupied)| >= SCAN_LIMIT
    ensures r.Some? && port >= 1024 && |Taken(protocol, busy, occupied)| < SCAN_LIMIT ==>
              r.value >= 1024 && r.value % 2 == port % 2
    ensures r.Some? && port < 1024 && |Taken(protocol, busy, occupied)| < 511 ==>
              r.value < 1024 && r.value % 2 == port % 2
  {
    if (port != 0 || protocol == 1) && Free(protocol, busy, occupied, port) {
      return Some(port);
    }
    var i := 0;
    while i < 4
      invariant 0 <= i <= 4
      invariant forall j :: 0 <= j < i ==>
                  |Taken(protocol, busy, occupied)| >= Min(Size(RangeHigh(port, j), RangeParity(port, j)), SCAN_LIMIT)
    {
      r := ScanRange(protocol, busy, occupied, RangeHigh(port, i), RangeParity(port, i), draws[i]);
      if r.Some? {
        assert i > 0 ==> |Taken(protocol, busy, occupied)| >= Min(Size(RangeHigh(port, 0), RangeParity(port, 0)), SCAN_LIMIT);
        return;
      }
      i := i + 1;
    }
    assert |Taken(protocol, busy, occupied)| >= Min(Size(RangeHigh(port, 0), RangeParity(port, 0)), SCAN_LIMIT);
    assert |Taken(protocol, busy, occupied)| >= Min(Size(RangeHigh(port, 2), RangeParity(port, 2)), SCAN_LIMIT);
    return None;
  }
}
