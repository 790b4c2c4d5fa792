/** Canonical DNS name order (section 6.1 of RFC 4034) and the minimal NSEC
    "next name" of src/discovery_proxy.rs. */
module Successor {
  import opened Bytes
  import opened DnsName
  import opened Results

  /** Labels order as left-justified octet strings; a missing octet sorts first. */
  predicate LabelLess(a: Label, b: Label)
  {
    if b == [] then false
    else if a == [] then true
    else if a[0] == b[0] then LabelLess(a[1..], b[1..])
    else a[0] < b[0]
  }

  function Front(n: Name): Name
    requires n != []
  {
    n[..|n| - 1]
  }

  function Last(n: Name): Label
    requires n != []
  {
    n[|n| - 1]
  }

  /** Names order by their most significant (last) label first; a missing label sorts first. */
  predicate Less(a: Name, b: Name)
  {
    if b == [] then false
    else if a == [] then true
    else if Last(a) == Last(b) then Less(Front(a), Front(b))
    else LabelLess(Last(a), Last(b))
  }

  predicate LessEq(a: Name, b: Name) { a == b || Less(a, b) }

  /** `n` lies at or below `zone`. */
  predicate HasSuffix(n: Name, zone: Name)
  {
    |zone| <= |n| && n[|n| - |zone|..] == zone
  }

  predicate InZone(n: Name, zone: Name) { HasSuffix(Lower(n), Lower(zone)) }

  /** A lower-case name that may exist in the (lower-case) zone. */
  predicate ZoneName(m: Name, zone: Name)
  {
    ValidName(m) && NoUpper(m) && HasSuffix(m, zone)
  }

  // ---------------------------------------------------------------- the two orders

  lemma {:induction false} LabelOrderIsStrictTotal(a: Label, b: Label)
    ensures !LabelLess(a, a)
    ensures a == b || LabelLess(a, b) || LabelLess(b, a)
    ensures !(LabelLess(a, b) && LabelLess(b, a))
  {
    if a != [] {
      LabelOrderIsStrictTotal(a[1..], if b == [] then [] else b[1..]);
      if b != [] && a[0] == b[0] {
        assert a == [a[0]] + a[1..] && b == [b[0]] + b[1..];
      }
    }
  }

  lemma {:induction false} LabelLessTransitive(a: Label, b: Label, c: Label)
    requires LabelLess(a, b) && LabelLess(b, c)
    ensures LabelLess(a, c)
  {
    if a != [] && a[0] == b[0] && b[0] == c[0] {
      LabelLessTransitive(a[1..], b[1..], c[1..]);
    }
  }

  lemma {:induction false} OrderIsStrictTotal(a: Name, b: Name)
    ensures !Less(a, a)
    ensures a == b || Less(a, b) || Less(b, a)
    ensures !(Less(a, b) && Less(b, a))
    decreases |a|
  {
    if a != [] {
      OrderIsStrictTotal(Front(a), if b == [] then [] else Front(b));
      assert a == Front(a) + [Last(a)];
      if b != [] {
        assert b == Front(b) + [Last(b)];
        LabelOrderIsStrictTotal(Last(a), Last(b));
      }
    }
  }

  lemma {:induction false} LessTransitive(a: Name, b: Name, c: Name)
    requires Less(a, b) && Less(b, c)
    ensures Less(a, c)
    decreases |a|
  {
    if a != [] {
      if Last(a) == Last(b) && Last(b) == Last(c) {
        LessTransitive(Front(a), Front(b), Front(c));
      } else if Last(a) != Last(b) && Last(b) != Last(c) {
        LabelLessTransitive(Last(a), Last(b), Last(c));
        LabelOrderIsStrictTotal(Last(a), Last(c));
      }
    }
  }

  /** A common suffix does not influence the order. */
  lemma {:induction false} CommonSuffix(a: Name, b: Name, s: Name)
    ensures Less(a + s, b + s) <==> Less(a, b)
    decreases |s|
  {
    if s == [] {
      assert a + s == a && b + s == b;
    } else {
      CommonSuffix(a, b, Front(s));
      assert Front(a + s) == a + Front(s) && Front(b + s) == b + Front(s);
    }
  }

  /** A common label prefix does not influence the label order. */
  lemma {:induction false} CommonPrefix(p: Label, a: Label, b: Label)
    ensures LabelLess(p + a, p + b) <==> LabelLess(a, b)
  {
    if p == [] {
      assert p + a == a && p + b == b;
    } else {
      CommonPrefix(p[1..], a, b);
      assert (p + a)[1..] == p[1..] + a && (p + b)[1..] == p[1..] + b;
    }
  }

  /** A greater label either extends the smaller one or exceeds it at a first position. */
  lemma {:induction false} GreaterLabelShape(a: Label, b: Label) returns (k: nat)
    requires LabelLess(a, b)
    ensures k <= |a| && k < |b| && a[..k] == b[..k]
    ensures k < |a| ==> a[k] < b[k]
  {
    if a == [] || a[0] != b[0] {
      k := 0;
    } else {
      var j := GreaterLabelShape(a[1..], b[1..]);
      k := j + 1;
      assert a[..k] == [a[0]] + a[1..][..j];
      assert b[..k] == [b[0]] + b[1..][..j];
    }
  }

  // ---------------------------------------------------------------- one label's next sibling

  /** The next octet an owner name in canonical (lower-case) form may hold. */
  function NextOctet(b: byte): (r: byte)
    requires b < 255
    ensures b < r && (!IsUpper(b) ==> !IsUpper(r))
    ensures forall c: byte :: b < c && !IsUpper(c) && !IsUpper(b) ==> r <= c
  {
    if b + 1 == 65 then 91 else b + 1
  }

  /** Position of the last octet below 255, or none: `rposition(|b| *b < 255)`. */
  predicate IsLastBelow255(l: Label, at: int)
  {
    -1 <= at < |l| && (at >= 0 ==> l[at] < 255) && forall i :: at < i < |l| ==> l[i] == 255
  }

  function Bumped(l: Label, at: nat): (r: Label)
    requires at < |l| && l[at] < 255
    ensures |r| == at + 1
  {
    l[..at] + [NextOctet(l[at])]
  }

  /** Nothing lies between `l` and `l` followed by a zero octet. */
  lemma ExtendedIsNext(l: Label, b: Label)
    requires LabelLess(l, b)
    ensures LabelLess(l, l + [0])
    ensures l + [0] == b || LabelLess(l + [0], b)
  {
    assert l + [] == l;
    CommonPrefix(l, [], [0]);
    var k := GreaterLabelShape(l, b);
    if k == |l| {
      assert b == l + b[k..];
      CommonPrefix(l, [0], b[k..]);
      if b[k] == 0 && |b| == k + 1 {
        assert b[k..] == [0];
      }
    } else {
      assert l + [0] == l[..k] + (l[k..] + [0]);
      assert b == l[..k] + b[k..];
      CommonPrefix(l[..k], l[k..] + [0], b[k..]);
    }
  }

  /** When a label cannot be extended, its next sibling is the bumped, truncated label. */
  lemma BumpedIsNext(l: Label, at: nat, b: Label)
    requires IsLastBelow255(l, at) && NoUpperLabel(l) && NoUpperLabel(b)
    requires LabelLess(l, b) && !(l <= b)
    ensures LabelLess(l, Bumped(l, at))
    ensures Bumped(l, at) == b || LabelLess(Bumped(l, at), b)
  {
    BumpedIsGreater(l, at);
    var k := GreaterLabelShape(l, b);
    assert k <= at;
    assert b == l[..k] + b[k..];
    assert Bumped(l, at) == l[..k] + Bumped(l, at)[k..];
    CommonPrefix(l[..k], Bumped(l, at)[k..], b[k..]);
    if k == at && NextOctet(l[at]) == b[k] {
      assert Bumped(l, at)[k..] == [b[k]];
      if |b| == k + 1 {
        assert b[k..] == [b[k]];
      }
    }
  }

  lemma BumpedIsGreater(l: Label, at: nat)
    requires at < |l| && l[at] < 255
    ensures LabelLess(l, Bumped(l, at))
  {
    assert l == l[..at] + l[at..];
    CommonPrefix(l[..at], l[at..], [NextOctet(l[at])]);
  }

  /** A label of 255s only has no greater sibling except its own extensions. */
  lemma AllOnesHasNoSibling(l: Label, b: Label)
    requires IsLastBelow255(l, -1) && LabelLess(l, b)
    ensures l <= b
  {
    var k := GreaterLabelShape(l, b);
    assert k == |l|;
  }

  // ---------------------------------------------------------------- the successor of a name

  /** `next` is the least name of the zone that follows `n`. */
  ghost predicate IsLeastAbove(n: Name, zone: Name, next: Name)
  {
    && ZoneName(next, zone)
    && Less(n, next)
    && forall m :: ZoneName(m, zone) && Less(n, m) ==> LessEq(next, m)
  }

  ghost predicate IsGreatest(n: Name, zone: Name)
  {
    forall m :: ZoneName(m, zone) ==> LessEq(m, n)
  }

  /** No name at or below `top` follows `n`. */
  ghost predicate ExhaustedBelow(n: Name, top: Name)
  {
    forall m :: ZoneName(m, top) ==> !Less(n, m)
  }

  lemma FrontSuffix(m: Name, p: Name)
    requires m != [] && p != [] && Last(m) == Last(p)
    ensures HasSuffix(Front(m), Front(p)) ==> HasSuffix(m, p)
  {
    if HasSuffix(Front(m), Front(p)) {
      assert m == Front(m) + [Last(m)] && p == Front(p) + [Last(p)];
      assert m[|m| - |p|..] == Front(m)[|Front(m)| - |Front(p)|..] + [Last(m)];
    }
  }

  /** Names outside the subtree of `p` compare alike with everything inside it. */
  lemma {:induction false} SubtreeComparesAlike(a: Name, c: Name, p: Name, m: Name)
    requires !HasSuffix(m, p)
    ensures Less(a + p, m) <==> Less(c + p, m)
    decreases |p|
  {
    if m != [] {
      assert Last(a + p) == Last(p) == Last(c + p);
      if Last(p) == Last(m) {
        assert Front(a + p) == a + Front(p) && Front(c + p) == c + Front(p);
        FrontSuffix(m, p);
        SubtreeComparesAlike(a, c, Front(p), Front(m));
      }
    }
  }

  /** The first child `\000.n` follows `n` immediately. */
  lemma FirstChildIsNext(n: Name, zone: Name)
    requires ZoneName(n, zone) && WireLen(n) <= 253
    ensures IsLeastAbove(n, zone, [[0]] + n)
  {
    var next := [[0]] + n;
    assert ZoneName(next, zone) by { FirstChildIsInZone(n, zone); }
    assert Less(n, next) by { assert [] + n == n; CommonSuffix([], [[0]], n); }
    forall m | ZoneName(m, zone) && Less(n, m)
      ensures LessEq(next, m)
    {
      FirstChildIsNotAfter(n, m);
    }
  }

  lemma FirstChildIsInZone(n: Name, zone: Name)
    requires ZoneName(n, zone) && WireLen(n) <= 253
    ensures ZoneName([[0]] + n, zone)
  {
    var next := [[0]] + n;
    assert next[|next| - |zone|..] == n[|n| - |zone|..];
    assert next[1..] == n;
  }

  lemma FirstChildIsNotAfter(n: Name, m: Name)
    requires ValidName(m) && Less(n, m)
    ensures LessEq([[0]] + n, m)
  {
    assert [] + n == n;
    if HasSuffix(m, n) {
      var x := m[..|m| - |n|];
      assert m == x + n;
      CommonSuffix([], x, n);
      CommonSuffix([[0]], x, n);
      assert Last(x) == m[|x| - 1];
      ZeroLabelIsLeast(Last(x));
      if Last(x) == [0] && |x| == 1 {
        assert x == [[0]];
      }
    } else {
      SubtreeComparesAlike([], [[0]], n, m);
    }
  }

  lemma ZeroLabelIsLeast(l: Label)
    requires l != []
    ensures l == [0] || LabelLess([0], l)
  {
    if l[0] == 0 && |l| == 1 {
      assert l == [0];
    }
  }

  lemma LabelsOf(m: Name, k: nat)
    requires ValidName(m) && k <= |m|
    ensures forall i :: 0 <= i < k ==> 1 <= |m[..k][i]|
  {
    assert forall i :: 0 <= i < k ==> m[..k][i] == m[i];
  }

  lemma NoRoomForAChild(n: Name)
    requires WireLen(n) >= 254
    ensures ExhaustedBelow(n, n)
  {
    forall m | ZoneName(m, n)
      ensures !Less(n, m)
    {
      var x := m[..|m| - |n|];
      assert m == x + n;
      WireLenAppend(x, n);
      LabelsOf(m, |x|);
      WireLenLowerBound(x);
      OrderIsStrictTotal(n, n);
    }
  }

  /** What follows `n` inside the subtree of `p` but not under `[l] + p`, where `n` lies. */
  lemma FollowersAreGreaterSiblings(n: Name, l: Label, p: Name, m: Name)
    requires HasSuffix(n, [l] + p) && !HasSuffix(m, [l] + p)
    requires HasSuffix(m, p) && Less(n, m)
    ensures |m| > |p| && LabelLess(l, m[|m| - |p| - 1])
  {
    SplitBefore(n, l, p);
    SplitSuffix(m, p);
    FollowersByLabel(n[..|n| - |p|], m[..|m| - |p|], p);
    SuffixGrows(m, p);
  }

  lemma SuffixGrows(m: Name, p: Name)
    requires HasSuffix(m, p) && |m| > |p|
    ensures HasSuffix(m, [m[|m| - |p| - 1]] + p)
  {
    assert m[|m| - |p| - 1..] == [m[|m| - |p| - 1]] + p;
  }

  lemma SplitSuffix(m: Name, p: Name)
    requires HasSuffix(m, p)
    ensures m == m[..|m| - |p|] + p
  {
  }

  lemma SplitBefore(n: Name, l: Label, p: Name)
    requires HasSuffix(n, [l] + p)
    ensures |n| > |p| && n == n[..|n| - |p|] + p && n[|n| - |p| - 1] == l
  {
    assert n[|n| - |p| - 1..] == [l] + p;
  }

  lemma FollowersByLabel(a: Name, x: Name, p: Name)
    requires a != [] && Less(a + p, x + p)
    ensures x != [] && (Last(x) == Last(a) || LabelLess(Last(a), Last(x)))
  {
    CommonSuffix(a, x, p);
  }

  /** `l'` is the least label that may stand beside `l` above `p`, and follows it. */
  ghost predicate LeastSibling(l: Label, l': Label, p: Name)
  {
    && ValidName([l'] + p) && NoUpperLabel(l') && LabelLess(l, l')
    && forall b :: LabelLess(l, b) && NoUpperLabel(b) && ValidName([b] + p) ==> l' == b || LabelLess(l', b)
  }

  /** A least admissible greater sibling label gives the successor. */
  lemma SiblingIsNext(n: Name, l: Label, l': Label, p: Name, zone: Name)
    requires HasSuffix(n, [l] + p) && ExhaustedBelow(n, [l] + p) && HasSuffix(p, zone) && NoUpper(p)
    requires LeastSibling(l, l', p)
    ensures IsLeastAbove(n, zone, [l'] + p)
  {
    var next := [l'] + p;
    SiblingIsGreater(n, l, l', p);
    assert HasSuffix(next, zone) by { assert next[|next| - |zone|..] == p[|p| - |zone|..]; }
    forall m | ZoneName(m, zone) && Less(n, m)
      ensures LessEq(next, m)
    {
      SiblingIsNotAfter(n, l, l', p, m);
    }
  }

  lemma SiblingIsGreater(n: Name, l: Label, l': Label, p: Name)
    requires HasSuffix(n, [l] + p) && LabelLess(l, l')
    ensures Less(n, [l'] + p)
  {
    var a := n[..|n| - |p|];
    assert n[|n| - |p| - 1..] == [l] + p;
    assert n == a + p && Last(a) == l;
    LabelOrderIsStrictTotal(l, l');
    CommonSuffix(a, [l'], p);
  }

  lemma SiblingIsNotAfter(n: Name, l: Label, l': Label, p: Name, m: Name)
    requires HasSuffix(n, [l] + p) && ExhaustedBelow(n, [l] + p) && LeastSibling(l, l', p)
    requires ValidName(m) && NoUpper(m) && Less(n, m)
    ensures LessEq([l'] + p, m)
  {
    if HasSuffix(m, p) {
      SiblingWithin(n, l, l', p, m);
    } else {
      SiblingOutside(n, l, l', p, m);
    }
  }

  lemma SiblingWithin(n: Name, l: Label, l': Label, p: Name, m: Name)
    requires HasSuffix(n, [l] + p) && ExhaustedBelow(n, [l] + p) && LeastSibling(l, l', p)
    requires ValidName(m) && NoUpper(m) && Less(n, m) && HasSuffix(m, p)
    ensures LessEq([l'] + p, m)
  {
    NextLabelAbove(n, l, l', p, m);
    SplitSuffix(m, p);
    SiblingBefore(l', m[..|m| - |p|], p);
  }

  lemma NextLabelAbove(n: Name, l: Label, l': Label, p: Name, m: Name)
    requires HasSuffix(n, [l] + p) && ExhaustedBelow(n, [l] + p) && LeastSibling(l, l', p)
    requires ValidName(m) && NoUpper(m) && Less(n, m) && HasSuffix(m, p)
    ensures |m| > |p| && var b := Last(m[..|m| - |p|]); l' == b || LabelLess(l', b)
  {
    hide Less, LabelLess, ValidName, HasSuffix;
    FollowersAreGreaterSiblings(n, l, p, m);
    SiblingOf(m, p);
    assert Last(m[..|m| - |p|]) == m[|m| - |p| - 1];
  }

  lemma SiblingBefore(l: Label, x: Name, p: Name)
    requires x != [] && (l == Last(x) || LabelLess(l, Last(x)))
    ensures LessEq([l] + p, x + p)
  {
    CommonSuffix([l], x, p);
    LabelOrderIsStrictTotal(l, Last(x));
    assert |x| == 1 ==> x == [Last(x)];
  }

  lemma SiblingOutside(n: Name, l: Label, l': Label, p: Name, m: Name)
    requires HasSuffix(n, [l] + p) && Less(n, m) && !HasSuffix(m, p)
    ensures LessEq([l'] + p, m)
  {
    hide Less;
    var a := n[..|n| - |p|];
    assert n[|n| - |p| - 1..] == [l] + p;
    assert n == a + p;
    SubtreeComparesAlike(a, [l'], p, m);
  }

  /** The label of `m` just above `p` is a valid sibling. */
  lemma SiblingOf(m: Name, p: Name)
    requires ValidName(m) && HasSuffix(m, p) && |m| > |p|
    ensures ValidName([m[|m| - |p| - 1]] + p)
  {
    AncestorIsValid(m, |m| - |p| - 1);
    assert m[|m| - |p| - 1..] == [m[|m| - |p| - 1]] + p;
  }

  lemma AncestorIsValid(m: Name, k: nat)
    requires ValidName(m) && k <= |m|
    ensures ValidName(m[k..])
  {
    assert m == m[..k] + m[k..];
    WireLenAppend(m[..k], m[k..]);
  }

  /** `rposition(|b| *b < 255)` as the source scans it, from the end. */
  method LastBelow255(l: Label) returns (at: int)
    ensures IsLastBelow255(l, at)
  {
    at := |l| - 1;
    while at >= 0 && l[at] == 255
      invariant -1 <= at < |l|
      invariant forall i :: at < i < |l| ==> l[i] == 255
    {
      at := at - 1;
    }
  }

  /** One round of the carry: extend the label, else bump it, else give up on it. */
  method NextSibling(l: Label, p: Name) returns (r: Option<Label>)
    requires ValidName([l] + p) && NoUpperLabel(l)
    ensures r.Some? ==> LeastSibling(l, r.value, p)
    ensures r.None? ==> forall b :: LabelLess(l, b) && NoUpperLabel(b) ==> !ValidName([b] + p)
  {
    if WireLen([l] + p) < 255 && |l| < 63 {
      ExtensionIsLeastSibling(l, p);
      return Some(l + [0]);
    }
    NoExtensionFits(l, p);
    var at := LastBelow255(l);
    if at >= 0 {
      BumpIsLeastSibling(l, at, p);
      return Some(Bumped(l, at));
    }
    forall b | LabelLess(l, b)
      ensures l <= b
    {
      AllOnesHasNoSibling(l, b);
    }
    return None;
  }

  /** The next owner name for a minimal NSEC record: the least name of the zone after
      `name`, wrapping to the apex exactly when `name` is the last one. Every label list it
      builds passes `from_labels`, so the error result is never taken. */
  method Next(name: Name, zone: Name) returns (next: Name)
    requires ValidName(name) && ValidName(zone) && InZone(name, zone)
    ensures ValidName(next)
    ensures IsGreatest(Lower(name), Lower(zone)) ==> next == zone
    ensures !IsGreatest(Lower(name), Lower(zone)) ==> IsLeastAbove(Lower(name), Lower(zone), next)
    ensures IsGreatest(Lower(name), Lower(zone)) <==> Lower(next) == Lower(zone)
  {
    var labels := Lower(name);
    ghost var apex := Lower(zone);
    LowerFacts(name);
    LowerFacts(zone);
    if WireLen(labels) <= 253 {
      next := [[0]] + labels;
      FirstChildIsNext(labels, apex);
      LeastIsNotApex(labels, apex, next);
      return;
    }
    next := NextBeyond(labels, zone);
  }

  /** The carry loop: the least name of the zone after everything below `labels`. */
  method NextBeyond(labels: Name, zone: Name) returns (next: Name)
    requires ZoneName(labels, Lower(zone)) && WireLen(labels) >= 254 && ValidName(zone)
    ensures ValidName(next)
    ensures IsGreatest(labels, Lower(zone)) ==> next == zone
    ensures !IsGreatest(labels, Lower(zone)) ==> IsLeastAbove(labels, Lower(zone), next)
    ensures IsGreatest(labels, Lower(zone)) <==> Lower(next) == Lower(zone)
  {
    ghost var apex := Lower(zone);
    NoRoomForAChild(labels);
    assert labels[0..] == labels;
    var start := 0;
    while start < |labels| - |zone|
      invariant 0 <= start <= |labels| - |zone|
      invariant ExhaustedBelow(labels, labels[start..])
    {
      var l, p := labels[start], labels[start + 1..];
      assert labels[start..] == [l] + p;
      AncestorIsValid(labels, start);
      var sibling := NextSibling(l, p);
      if sibling.Some? {
        next := [sibling.value] + p;
        SiblingCompletes(labels, start, sibling.value, apex);
        return;
      }
      NothingBelowParent(labels, l, p);
      start := start + 1;
    }
    assert labels[start..] == apex;
    LastNameIsGreatest(labels, apex);
    next := zone;
  }

  lemma SiblingCompletes(n: Name, start: nat, l': Label, zone: Name)
    requires NoUpper(n) && HasSuffix(n, zone) && start < |n| - |zone|
    requires ExhaustedBelow(n, n[start..]) && LeastSibling(n[start], l', n[start + 1..])
    ensures IsLeastAbove(n, zone, [l'] + n[start + 1..])
    ensures !IsGreatest(n, zone) && Lower([l'] + n[start + 1..]) != zone
  {
    var p := n[start + 1..];
    assert n[start..] == [n[start]] + p;
    assert p[|p| - |zone|..] == n[|n| - |zone|..];
    SiblingIsNext(n, n[start], l', p, zone);
    LeastIsNotApex(n, zone, [l'] + p);
  }

  lemma ExtensionIsLeastSibling(l: Label, p: Name)
    requires ValidName([l] + p) && NoUpperLabel(l) && WireLen([l] + p) < 255 && |l| < 63
    ensures LeastSibling(l, l + [0], p)
  {
    assert ([l] + p)[1..] == p && ([l + [0]] + p)[1..] == p;
    assert forall i :: 1 <= i <= |p| ==> ([l + [0]] + p)[i] == ([l] + p)[i];
    assert l + [] == l;
    CommonPrefix(l, [], [0]);
    forall b | LabelLess(l, b)
      ensures l + [0] == b || LabelLess(l + [0], b)
    {
      ExtendedIsNext(l, b);
    }
  }

  lemma BumpIsLeastSibling(l: Label, at: nat, p: Name)
    requires ValidName([l] + p) && NoUpperLabel(l) && IsLastBelow255(l, at)
    requires forall b :: LabelLess(l, b) && ValidName([b] + p) ==> !(l <= b)
    ensures LeastSibling(l, Bumped(l, at), p)
  {
    assert ([l] + p)[1..] == p && ([Bumped(l, at)] + p)[1..] == p;
    assert forall i :: 1 <= i <= |p| ==> ([Bumped(l, at)] + p)[i] == ([l] + p)[i];
    BumpedIsGreater(l, at);
    forall b | LabelLess(l, b) && NoUpperLabel(b) && ValidName([b] + p)
      ensures Bumped(l, at) == b || LabelLess(Bumped(l, at), b)
    {
      BumpedIsNext(l, at, b);
    }
  }

  lemma LeastIsNotApex(n: Name, zone: Name, next: Name)
    requires HasSuffix(n, zone) && IsLeastAbove(n, zone, next)
    ensures !IsGreatest(n, zone) && Lower(next) != zone
  {
    OrderIsStrictTotal(n, next);
    assert Lower(next) == next by {
      assert forall i :: 0 <= i < |next| ==> LowerLabel(next[i]) == next[i];
    }
    if next == zone {
      var a := n[..|n| - |zone|];
      assert n == a + zone && zone == [] + zone;
      CommonSuffix(a, [], zone);
    }
  }

  lemma ProperPrefix(l: Label, b: Label)
    requires LabelLess(l, b)
    ensures l <= b ==> |l| < |b|
  {
    LabelOrderIsStrictTotal(l, l);
    assert l <= b && |l| == |b| ==> l == b;
  }

  /** A full label or a full name admits no longer sibling. */
  lemma NoExtensionFits(l: Label, p: Name)
    requires WireLen([l] + p) >= 255 || |l| >= 63
    ensures forall b :: LabelLess(l, b) && ValidName([b] + p) ==> !(l <= b)
  {
    forall b | LabelLess(l, b) && ValidName([b] + p)
      ensures !(l <= b)
    {
      assert ([b] + p)[0] == b && ([b] + p)[1..] == p && ([l] + p)[1..] == p;
      ProperPrefix(l, b);
    }
  }

  lemma NothingBelowParent(n: Name, l: Label, p: Name)
    requires HasSuffix(n, [l] + p) && ExhaustedBelow(n, [l] + p)
    requires forall b :: LabelLess(l, b) && NoUpperLabel(b) ==> !ValidName([b] + p)
    ensures ExhaustedBelow(n, p)
  {
    forall m | ZoneName(m, p)
      ensures !Less(n, m)
    {
      if Less(n, m) {
        FollowersAreGreaterSiblings(n, l, p, m);
        SiblingOf(m, p);
      }
    }
  }

  lemma LastNameIsGreatest(n: Name, zone: Name)
    requires ExhaustedBelow(n, zone)
    ensures IsGreatest(n, zone)
  {
    forall m | ZoneName(m, zone)
      ensures LessEq(m, n)
    {
      OrderIsStrictTotal(n, m);
    }
  }

  /** The contract of `Next` admits one answer only. */
  lemma LeastAboveIsUnique(n: Name, zone: Name, a: Name, b: Name)
    requires IsLeastAbove(n, zone, a) && IsLeastAbove(n, zone, b)
    ensures a == b
  {
    OrderIsStrictTotal(a, b);
  }
}
