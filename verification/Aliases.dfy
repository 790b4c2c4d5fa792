/** Following aliases for the Additional-A lookups of src/dns/resolver.rs. */
module Aliases {
  import opened Results

  type Name = nat

  datatype Question = Question(name: Name, kind: nat)

  datatype Edge = Edge(owner: Name, target: Name)

  /** A parsed response: its code, its CNAME records in order, the owners of its A records, and
      whether it has any AAAA record. */
  datatype Answer = Answer(rcode: nat, cnames: seq<Edge>, addresses: set<Name>, aaaa: bool)

  const A := 1
  const AAAA := 28
  const NXDOMAIN := 3
  const ALIASES := 17

  function Targets(cnames: seq<Edge>, name: Name): seq<Name>
  {
    if cnames == [] then []
    else (if cnames[0].owner == name then [cnames[0].target] else []) + Targets(cnames[1..], name)
  }

  predicate AllSame(targets: seq<Name>) { forall i :: 0 <= i < |targets| ==> targets[i] == targets[0] }

  /** The targets are those of the records that `name` owns. */
  lemma {:induction false} TargetsExactly(cnames: seq<Edge>, name: Name, target: Name)
    ensures target in Targets(cnames, name) <==> Edge(name, target) in cnames
  {
    if cnames != [] {
      TargetsExactly(cnames[1..], name, target);
      assert cnames == [cnames[0]] + cnames[1..];
      assert Edge(name, target) in cnames <==> cnames[0] == Edge(name, target) || Edge(name, target) in cnames[1..];
    }
  }

  /** `n` unambiguous aliases on from `name`. */
  ghost function Follow(m: Answer, name: Name, n: nat): Option<Name>
  {
    if n == 0 then Some(name)
    else
      match Follow(m, name, n - 1)
      case None => None
      case Some(at) =>
        if exists target :: Edge(at, target) in m.cnames && forall e :: e in m.cnames && e.owner == at ==> e.target == target
        then var target :| Edge(at, target) in m.cnames; Some(target)
        else None
  }

  /** The chain from `name` ends after `n` aliases. */
  ghost predicate EndsAfter(m: Answer, name: Name, n: nat)
  {
    Follow(m, name, n).Some? && forall e :: e in m.cnames ==> e.owner != Follow(m, name, n).value
  }

  /** One step as the loops take it. */
  lemma FollowStep(m: Answer, name: Name, n: nat, at: Name)
    requires Follow(m, name, n) == Some(at)
    ensures var targets := Targets(m.cnames, at);
            && (targets == [] <==> EndsAfter(m, name, n))
            && Follow(m, name, n + 1) == if targets != [] && AllSame(targets) then Some(targets[0]) else None
  {
    var targets := Targets(m.cnames, at);
    forall e | e in m.cnames && e.owner == at
      ensures e.target in targets
    {
      assert e == Edge(at, e.target);
      TargetsExactly(m.cnames, at, e.target);
    }
    if targets != [] {
      TargetsExactly(m.cnames, at, targets[0]);
      assert Edge(at, targets[0]) in m.cnames;
      if !AllSame(targets) {
        var i :| 0 <= i < |targets| && targets[i] != targets[0];
        TargetsExactly(m.cnames, at, targets[i]);
        assert Edge(at, targets[i]) in m.cnames;
      }
    } else {
      forall e | e in m.cnames
        ensures e.owner != at
      {
        assert e == Edge(e.owner, e.target);
        TargetsExactly(m.cnames, at, e.target);
      }
    }
  }

  lemma {:induction false} FollowPrefix(m: Answer, name: Name, k: nat, n: nat)
    requires k <= n && Follow(m, name, n).Some?
    ensures Follow(m, name, k).Some?
  {
    if k < n { FollowPrefix(m, name, k, n - 1); }
  }

  /** A chain that has ended goes no further. */
  lemma EndIsLast(m: Answer, name: Name, n: nat, k: nat)
    requires EndsAfter(m, name, n) && Follow(m, name, k).Some?
    ensures k <= n
  {
    FollowStep(m, name, n, Follow(m, name, n).value);
    if k > n { FollowPrefix(m, name, n + 1, k); }
  }

  lemma NextAgrees(m: Answer, name: Name, i: nat, j: nat)
    requires Follow(m, name, i) == Follow(m, name, j)
    ensures Follow(m, name, i + 1) == Follow(m, name, j + 1)
  {
    hide Targets, AllSame;
    if Follow(m, name, i).Some? {
      FollowStep(m, name, i, Follow(m, name, i).value);
      FollowStep(m, name, j, Follow(m, name, i).value);
    }
  }

  lemma {:induction false} FollowAgree(m: Answer, name: Name, i: nat, j: nat, d: nat)
    requires Follow(m, name, i) == Follow(m, name, j)
    ensures Follow(m, name, i + d) == Follow(m, name, j + d)
  {
    hide Follow;
    if d > 0 {
      FollowAgree(m, name, i, j, d - 1);
      NextAgrees(m, name, i + d - 1, j + d - 1);
    }
  }

  lemma SameEnd(m: Answer, name: Name, n: nat, k: nat)
    requires EndsAfter(m, name, n) && Follow(m, name, k) == Follow(m, name, n)
    ensures k >= n
  {
    hide Follow;
    assert EndsAfter(m, name, k);
    EndIsLast(m, name, k, n);
  }

  /** A chain that ends does not pass a name twice. */
  lemma EndedIsDistinct(m: Answer, name: Name, n: nat, i: nat, j: nat)
    requires EndsAfter(m, name, n) && i < j <= n
    ensures Follow(m, name, i) != Follow(m, name, j)
  {
    hide Follow, EndsAfter;
    if Follow(m, name, i) == Follow(m, name, j) {
      var sooner := i + (n - j);
      FollowAgree(m, name, i, j, n - j);
      assert j + (n - j) == n;
      SameEnd(m, name, n, sooner);
      assert false;
    }
  }

  /** `canonical`: the end of the alias chain, unless it loops, splits or is too long. */
  function Canonical(m: Answer, name: Name, seen: set<Name>, depth: nat): Option<Name>
    requires depth <= 16
    decreases 16 - depth
  {
    var targets := Targets(m.cnames, name);
    if name in seen then None
    else if targets == [] then Some(name)
    else if depth == 16 || !AllSame(targets) then None
    else Canonical(m, targets[0], seen + {name}, depth + 1)
  }

  /** The names before the `n`th on a chain. */
  ghost predicate Passed(m: Answer, start: Name, n: nat, seen: set<Name>)
  {
    && (forall k: nat :: k < n ==> Follow(m, start, k).Some? && Follow(m, start, k).value in seen)
    && (forall s :: s in seen ==> exists k: nat :: k < n && Follow(m, start, k) == Some(s))
  }

  lemma PassOne(m: Answer, start: Name, n: nat, name: Name, seen: set<Name>)
    requires Passed(m, start, n, seen) && Follow(m, start, n) == Some(name)
    ensures Passed(m, start, n + 1, seen + {name})
  {
  }

  /** The result is the end of the chain, and there is one exactly when the chain ends within
      sixteen unambiguous steps. */
  lemma {:induction false} CanonicalEnds(m: Answer, start: Name, n: nat, name: Name, seen: set<Name>)
    requires n <= 16 && Follow(m, start, n) == Some(name) && Passed(m, start, n, seen)
    ensures forall k: nat :: k <= 16 && EndsAfter(m, start, k) ==> Canonical(m, name, seen, n) == Follow(m, start, k)
    ensures Canonical(m, name, seen, n).Some? ==>
              exists k: nat :: k <= 16 && EndsAfter(m, start, k) && Follow(m, start, k) == Canonical(m, name, seen, n)
    decreases 16 - n
  {
    hide Follow, Passed, EndsAfter;
    var targets := Targets(m.cnames, name);
    FollowStep(m, start, n, name);
    forall k: nat | k <= 16 && EndsAfter(m, start, k)
      ensures n <= k && name !in seen
    {
      EndIsLast(m, start, k, n);
      if name in seen {
        var i: nat := PassedAt(m, start, n, seen, name);
        EndedIsDistinct(m, start, k, i, n);
        assert false;
      }
    }
    if name !in seen && targets != [] && n < 16 && AllSame(targets) {
      PassOne(m, start, n, name, seen);
      CanonicalEnds(m, start, n + 1, targets[0], seen + {name});
    }
    forall k: nat | k <= 16 && EndsAfter(m, start, k)
      ensures Canonical(m, name, seen, n) == Follow(m, start, k)
    {
      StepsLeft(m, start, n, k);
    }
  }

  ghost function PassedAt(m: Answer, start: Name, n: nat, seen: set<Name>, name: Name): (k: nat)
    requires Passed(m, start, n, seen) && name in seen
    ensures k < n && Follow(m, start, k) == Some(name)
  {
    var k: nat :| k < n && Follow(m, start, k) == Some(name);
    k
  }

  /** Before the end there is one more step; at the end there is none. */
  lemma StepsLeft(m: Answer, start: Name, n: nat, k: nat)
    requires Follow(m, start, n).Some? && EndsAfter(m, start, k)
    ensures n <= k && (EndsAfter(m, start, n) <==> n == k) && (n < k ==> Follow(m, start, n + 1).Some?)
  {
    EndIsLast(m, start, k, n);
    if n < k { FollowPrefix(m, start, n + 1, k); }
    if EndsAfter(m, start, n) { EndIsLast(m, start, n, k); }
  }

  /** The A lookup that an empty AAAA answer calls for: for the name where its chain ends, if
      that is within sixteen aliases. */
  function AdditionalQuestion(m: Answer, q: Question, enabled: bool): (r: Option<Question>)
    ensures r.Some? <==> && enabled && q.kind == AAAA && m.rcode != NXDOMAIN && !m.aaaa
                         && exists k: nat :: k <= 16 && EndsAfter(m, q.name, k)
    ensures r.Some? ==> r.value.kind == A && forall k: nat :: EndsAfter(m, q.name, k) ==> Follow(m, q.name, k) == Some(r.value.name)
  {
    CanonicalFrom(m, q.name);
    if !enabled || q.kind != AAAA || m.rcode == NXDOMAIN || m.aaaa then None
    else
      match Canonical(m, q.name, {}, 0)
      case None => None
      case Some(name) => Some(Question(name, A))
  }

  lemma CanonicalFrom(m: Answer, name: Name)
    ensures Canonical(m, name, {}, 0).Some? <==> exists k: nat :: k <= 16 && EndsAfter(m, name, k)
    ensures Canonical(m, name, {}, 0).Some? ==> forall k: nat :: EndsAfter(m, name, k) ==> Follow(m, name, k) == Canonical(m, name, {}, 0)
  {
    hide Follow, Canonical;
    StartOfChain(m, name);
    assert Passed(m, name, 0, {});
    CanonicalEnds(m, name, 0, name, {});
    if Canonical(m, name, {}, 0).Some? {
      var end: nat :| end <= 16 && EndsAfter(m, name, end);
      forall k: nat | EndsAfter(m, name, k)
        ensures k == end
      {
        OneEnd(m, name, k, end);
      }
    }
  }

  lemma OneEnd(m: Answer, name: Name, n: nat, k: nat)
    requires EndsAfter(m, name, n) && EndsAfter(m, name, k)
    ensures n == k
  {
    EndIsLast(m, name, n, k);
    EndIsLast(m, name, k, n);
  }

  /** The names on the way to the `n`th, without the first. */
  ghost function Visited(m: Answer, start: Name, n: nat): set<Name>
  {
    if n == 0 then {} else Visited(m, start, n - 1) + if Follow(m, start, n).Some? then {Follow(m, start, n).value} else {}
  }

  lemma {:induction false} VisitedExactly(m: Answer, start: Name, n: nat, name: Name)
    ensures name in Visited(m, start, n) <==> exists k: nat :: 1 <= k <= n && Follow(m, start, k) == Some(name)
  {
    hide Follow;
    if n > 0 {
      VisitedExactly(m, start, n - 1, name);
      if name in Visited(m, start, n) && name !in Visited(m, start, n - 1) {
        assert Follow(m, start, n) == Some(name);
      }
      if k: nat :| 1 <= k <= n && Follow(m, start, k) == Some(name) {
        assert k == n || 1 <= k <= n - 1;
      }
    }
  }

  /** The answer's chain has `n` aliases, all new, and ends at a name without an address. */
  ghost predicate Leaves(m: Answer, q: Question, before: set<Name>, n: nat)
  {
    && m.rcode == 0 && q.kind == A && n >= 1 && |before| + n <= ALIASES
    && EndsAfter(m, q.name, n) && Follow(m, q.name, n).value !in m.addresses
    && Visited(m, q.name, n) !! before
  }

  /** The next lookup of a chain that leaves the response: there is one exactly when the chain
      ends at a name without address and all its names are new, at most seventeen in all. */
  method AdditionalAlias(m: Answer, q: Question, before: set<Name>) returns (next: Option<Question>, seen: set<Name>)
    requires |before| <= ALIASES
    ensures before <= seen && |seen| <= ALIASES
    ensures next.Some? <==> exists n: nat :: Leaves(m, q, before, n)
    ensures next.Some? ==> |before| < |seen|
    ensures forall n: nat :: Leaves(m, q, before, n) ==>
              && Follow(m, q.name, n).Some? && next == Some(Question(Follow(m, q.name, n).value, A))
              && seen == before + Visited(m, q.name, n) && |seen| == |before| + n
  {
    hide Follow, EndsAfter, Visited;
    seen, next := before, None;
    if m.rcode != 0 || q.kind != A { return; }
    var name := q.name;
    var targets := Targets(m.cnames, name);
    ghost var k: nat := 0;
    StartOfChain(m, q.name);
    while targets != []
      invariant targets == Targets(m.cnames, name) && Follow(m, q.name, k) == Some(name)
      invariant seen == before + Visited(m, q.name, k) && |seen| == |before| + k <= ALIASES && before !! Visited(m, q.name, k)
      decreases ALIASES - |seen|
    {
      FollowStep(m, q.name, k, name);
      if !AllSame(targets) || |seen| >= ALIASES || targets[0] in seen {
        Stuck(m, q, before, k, name, targets);
        return;
      }
      NextVisited(m, q.name, k, targets[0]);
      seen := seen + {targets[0]};
      name, k := targets[0], k + 1;
      targets := Targets(m.cnames, name);
    }
    FollowStep(m, q.name, k, name);
    AtTheEnd(m, q, before, k, name);
    assert k >= 1 && name !in m.addresses ==> Leaves(m, q, before, k);
    if name != q.name && name !in m.addresses { next := Some(Question(name, A)); }
  }

  lemma StartOfChain(m: Answer, name: Name)
    ensures Follow(m, name, 0) == Some(name) && Visited(m, name, 0) == {}
  {
  }

  lemma NextVisited(m: Answer, name: Name, k: nat, target: Name)
    requires Follow(m, name, k + 1) == Some(target)
    ensures Visited(m, name, k + 1) == Visited(m, name, k) + {target}
  {
  }

  /** A chain that splits, is too long or meets a name again does not leave the response. */
  lemma Stuck(m: Answer, q: Question, before: set<Name>, k: nat, name: Name, targets: seq<Name>)
    requires targets == Targets(m.cnames, name) && targets != [] && Follow(m, q.name, k) == Some(name)
    requires !AllSame(targets) || |before| + k >= ALIASES || targets[0] in before || targets[0] in Visited(m, q.name, k)
    ensures forall n: nat :: !Leaves(m, q, before, n)
  {
    hide Follow, EndsAfter, Visited;
    FollowStep(m, q.name, k, name);
    forall n: nat
      ensures !Leaves(m, q, before, n)
    {
      if Leaves(m, q, before, n) {
        StepsLeft(m, q.name, k, n);
        VisitedExactly(m, q.name, n, targets[0]);
        VisitedExactly(m, q.name, k, targets[0]);
        if targets[0] in Visited(m, q.name, k) {
          var i: nat :| 1 <= i <= k && Follow(m, q.name, i) == Some(targets[0]);
          EndedIsDistinct(m, q.name, n, i, k + 1);
        }
        assert false;
      }
    }
  }

  lemma AtTheEnd(m: Answer, q: Question, before: set<Name>, k: nat, name: Name)
    requires Follow(m, q.name, k) == Some(name) && EndsAfter(m, q.name, k) && m.rcode == 0 && q.kind == A
    requires |before| + k <= ALIASES && before !! Visited(m, q.name, k)
    ensures name != q.name <==> k >= 1
    ensures forall n: nat :: Leaves(m, q, before, n) <==> n == k && k >= 1 && name !in m.addresses
  {
    hide Follow, EndsAfter, Visited;
    StartOfChain(m, q.name);
    if k >= 1 { EndedIsDistinct(m, q.name, k, 0, k); }
    forall n: nat
      ensures Leaves(m, q, before, n) <==> n == k && k >= 1 && name !in m.addresses
    {
      if Leaves(m, q, before, n) { OneEnd(m, q.name, n, k); }
    }
  }
}
