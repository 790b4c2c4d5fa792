/** Waiting clients of the forwarding resolver, counted with their multiplicity. */
module Waiters {
  datatype Waiter = Waiter(address: nat, connection: int, id: nat)

  /** Everyone in a table of queues. */
  ghost function Held(lines: map<nat, seq<Waiter>>): multiset<Waiter>
  {
    if lines == map[] then multiset{}
    else
      var k :| k in lines;
      multiset(lines[k]) + Held(lines - {k})
  }

  lemma {:induction false} HeldWithout(lines: map<nat, seq<Waiter>>, k: nat)
    requires k in lines
    ensures Held(lines) == multiset(lines[k]) + Held(lines - {k})
    decreases |lines|
  {
    var j :| j in lines && Held(lines) == multiset(lines[j]) + Held(lines - {j});
    if j != k {
      Smaller(lines, j);
      Smaller(lines, k);
      HeldWithout(lines - {j}, k);
      HeldWithout(lines - {k}, j);
      assert lines - {j} - {k} == lines - {k} - {j};
    }
  }

  lemma Smaller(lines: map<nat, seq<Waiter>>, k: nat)
    requires k in lines
    ensures |lines - {k}| == |lines| - 1
  {
    assert (lines - {k}).Keys == lines.Keys - {k};
    assert |lines| == |lines.Keys| && |lines - {k}| == |(lines - {k}).Keys|;
  }

  lemma HeldWith(lines: map<nat, seq<Waiter>>, k: nat, line: seq<Waiter>)
    ensures k !in lines ==> Held(lines[k := line]) == Held(lines) + multiset(line)
    ensures k in lines ==> Held(lines[k := line]) + multiset(lines[k]) == Held(lines) + multiset(line)
  {
    HeldWithout(lines[k := line], k);
    assert lines[k := line] - {k} == lines - {k};
    if k in lines {
      HeldWithout(lines, k);
    } else {
      assert lines - {k} == lines;
    }
  }

  /** Those who do not belong to a connection. */
  function Others(line: seq<Waiter>, connection: int): seq<Waiter>
  {
    if line == [] then []
    else (if line[0].connection == connection then [] else [line[0]]) + Others(line[1..], connection)
  }

  lemma {:induction false} OthersCount(line: seq<Waiter>, connection: int, w: Waiter)
    ensures multiset(Others(line, connection))[w] == if w.connection == connection then 0 else multiset(line)[w]
  {
    if line != [] {
      OthersCount(line[1..], connection, w);
      assert line == [line[0]] + line[1..];
      var head := if line[0].connection == connection then [] else [line[0]];
      assert multiset(head + Others(line[1..], connection)) == multiset(head) + multiset(Others(line[1..], connection));
    }
  }

  /** `after` keeps what is left of each queue, and may drop the empty ones. */
  ghost predicate Pruned(lines: map<nat, seq<Waiter>>, connection: int, after: map<nat, seq<Waiter>>)
  {
    && (forall k :: k in after ==> k in lines && after[k] == Others(lines[k], connection))
    && (forall k :: k in lines && k !in after ==> Others(lines[k], connection) == [])
  }

  lemma {:induction false} PrunedCount(lines: map<nat, seq<Waiter>>, connection: int, after: map<nat, seq<Waiter>>, w: Waiter)
    requires Pruned(lines, connection, after)
    ensures Held(after)[w] == if w.connection == connection then 0 else Held(lines)[w]
    decreases |lines|
  {
    hide Others, Held;
    if lines == map[] {
      assert after == map[];
      NobodyHeld();
    } else {
      var k :| k in lines;
      Smaller(lines, k);
      PrunedCount(lines - {k}, connection, after - {k}, w);
      HeldWithout(lines, k);
      OthersCount(lines[k], connection, w);
      if k in after {
        HeldWithout(after, k);
      } else {
        assert after - {k} == after;
      }
    }
  }

  lemma NobodyHeld()
    ensures Held(map[]) == multiset{}
  {
  }
}
