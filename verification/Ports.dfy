/** The shared port and identifier registry of src/service_io/ports.rs. */
module Ports {
  import opened Bytes
  import opened Results

  datatype Owner = Local | Translation

  datatype Error = InvalidInput | WouldBlock | Exhausted

  datatype Port = Port(protocol: nat, number: nat)

  /** Who holds an entry: its generation number and its owner. */
  datatype Holder = Holder(id: nat, owner: Owner)

  /** A claim; dropping it frees the entry if it still carries this generation number. */
  datatype Lease = Lease(port: Port, id: nat)

  const LOCAL_CAP := 256
  const TRANSLATION_CAP := 4096

  datatype State = State(entries: map<Port, Holder>, local: nat, translation: nat, next: nat)

  function Held(entries: map<Port, Holder>, owner: Owner): (s: set<Port>)
  {
    set p | p in entries && entries[p].owner == owner
  }

  /** Counters are true counts within the caps, and generation numbers are unique. */
  predicate Sane(s: State)
  {
    && s.local == |Held(s.entries, Local)| <= LOCAL_CAP
    && s.translation == |Held(s.entries, Translation)| <= TRANSLATION_CAP
    && (forall p :: p in s.entries ==> s.entries[p].id <= s.next)
    && (forall p, q :: p in s.entries && q in s.entries && p != q ==> s.entries[p].id != s.entries[q].id)
  }

  predicate Legal(p: Port) { p.protocol in {1, 6, 17} && (p.protocol == 1 || p.number != 0) }

  predicate Full(s: State, owner: Owner)
  {
    match owner
    case Local => s.local >= LOCAL_CAP
    case Translation => s.translation >= TRANSLATION_CAP
  }

  /** `claim`, as a transition. */
  function Claim(s: State, p: Port, owner: Owner): (r: Result<(State, Lease), Error>)
  {
    if !Legal(p) then Err(InvalidInput)
    else if p in s.entries || Full(s, owner) then Err(WouldBlock)
    else if s.next >= U64_MAX then Err(Exhausted)
    else
      var id := s.next + 1;
      var local := s.local + if owner.Local? then 1 else 0;
      var translation := s.translation + if owner.Translation? then 1 else 0;
      Ok((State(s.entries[p := Holder(id, owner)], local, translation, id), Lease(p, id)))
  }

  /** A lease is live while the entry carries its generation number. */
  predicate Live(s: State, l: Lease) { l.port in s.entries && s.entries[l.port].id == l.id }

  /** The last clone of a lease is dropped. */
  function Drop(s: State, l: Lease): (r: State)
    requires Sane(s)
  {
    if !Live(s, l) then s
    else
      CountsPositive(s, l.port);
      if s.entries[l.port].owner.Local? then s.(entries := s.entries - {l.port}, local := s.local - 1)
      else s.(entries := s.entries - {l.port}, translation := s.translation - 1)
  }

  /** Only ICMP, TCP and UDP have entries, and number 0 only ICMP; an entry is given once, while its
      owner has fewer than 256 or 4096 of them, under a number never used before. */
  lemma ClaimExactly(s: State, p: Port, owner: Owner)
    ensures var legal := p.protocol == 1 || ((p.protocol == 6 || p.protocol == 17) && p.number > 0);
            var free := p !in s.entries && (owner == Local ==> s.local < 256) && (owner == Translation ==> s.translation < 4096);
            match Claim(s, p, owner)
            case Err(InvalidInput) => !legal
            case Err(WouldBlock) => legal && !free
            case Err(Exhausted) => legal && free && s.next >= U64_MAX
            case Ok((t, l)) =>
              && legal && free && s.next < U64_MAX && l == Lease(p, s.next + 1) && t.next == s.next + 1
              && t.entries == s.entries[p := Holder(l.id, owner)]
              && t.local + t.translation == s.local + s.translation + 1 && (t.local == s.local <==> owner == Translation)
  {
  }

  /** A drop frees the entry exactly if it is still the one that the lease was given. */
  lemma DropExactly(s: State, l: Lease)
    requires Sane(s)
    ensures Drop(s, l).entries ==
            if l.port in s.entries && s.entries[l.port].id == l.id then s.entries - {l.port} else s.entries
    ensures Drop(s, l).next == s.next
  {
  }

  lemma CountsPositive(s: State, p: Port)
    requires Sane(s) && p in s.entries
    ensures s.entries[p].owner.Local? ==> s.local > 0
    ensures s.entries[p].owner.Translation? ==> s.translation > 0
  {
    assert p in Held(s.entries, s.entries[p].owner);
  }

  lemma HeldAfterClaim(entries: map<Port, Holder>, p: Port, h: Holder)
    requires p !in entries
    ensures Held(entries[p := h], h.owner) == Held(entries, h.owner) + {p} && p !in Held(entries, h.owner)
    ensures forall o :: o != h.owner ==> Held(entries[p := h], o) == Held(entries, o)
  {
  }

  lemma HeldAfterDrop(entries: map<Port, Holder>, p: Port)
    requires p in entries
    ensures Held(entries - {p}, entries[p].owner) == Held(entries, entries[p].owner) - {p}
    ensures p in Held(entries, entries[p].owner)
    ensures forall o :: o != entries[p].owner ==> Held(entries - {p}, o) == Held(entries, o)
  {
  }

  lemma ClaimKeepsOk(s: State, p: Port, owner: Owner)
    requires Sane(s) && Claim(s, p, owner).Ok?
    ensures Sane(Claim(s, p, owner).value.0) && Live(Claim(s, p, owner).value.0, Claim(s, p, owner).value.1)
  {
    hide Held;
    HeldAfterClaim(s.entries, p, Holder(s.next + 1, owner));
  }

  lemma DropKeepsOk(s: State, l: Lease)
    requires Sane(s)
    ensures Sane(Drop(s, l))
  {
    hide Held;
    if Live(s, l) { HeldAfterDrop(s.entries, l.port); }
  }

  /** Claiming and dropping give back the table (all but the generation counter), and dropping
      one owner's lease never frees another's entry. */
  lemma ClaimThenDrop(s: State, p: Port, owner: Owner)
    requires Sane(s) && Claim(s, p, owner).Ok?
    ensures var (t, l) := Claim(s, p, owner).value; Sane(t) && Drop(t, l) == s.(next := t.next)
  {
    var (t, l) := Claim(s, p, owner).value;
    ClaimKeepsOk(s, p, owner);
    assert t.entries - {p} == s.entries;
  }

  lemma DropIsSelective(s: State, l: Lease, other: Lease)
    requires Sane(s) && Live(s, other) && l != other
    ensures Sane(Drop(s, l)) && Live(Drop(s, l), other)
  {
    DropKeepsOk(s, l);
  }

  /** Occupied numbers of one protocol are few. */
  lemma FewEntries(s: State)
    requires Sane(s)
    ensures |s.entries| <= LOCAL_CAP + TRANSLATION_CAP
  {
    assert s.entries.Keys == Held(s.entries, Local) + Held(s.entries, Translation);
    assert Held(s.entries, Local) * Held(s.entries, Translation) == {};
    assert |s.entries| == |s.entries.Keys|;
  }

  /** The registry object, shared by the local endpoints and the translator. */
  class Registry {
    var state: State

    ghost predicate Valid()
      reads this
    {
      Sane(state)
    }

    constructor ()
      ensures Valid() && state == State(map[], 0, 0, 0)
    {
      state := State(map[], 0, 0, 0);
    }

    method ClaimPort(p: Port, owner: Owner) returns (r: Result<Lease, Error>)
      requires Valid()
      modifies this
      ensures Valid()
      ensures Claim(old(state), p, owner).Ok? ==>
                r == Ok(Claim(old(state), p, owner).value.1) && state == Claim(old(state), p, owner).value.0
      ensures Claim(old(state), p, owner).Err? ==>
                r == Err(Claim(old(state), p, owner).error) && state == old(state)
    {
      if !Legal(p) {
        return Err(InvalidInput);
      }
      if p in state.entries || (match owner case Local => state.local >= LOCAL_CAP case Translation => state.translation >= TRANSLATION_CAP) {
        return Err(WouldBlock);
      }
      if state.next >= U64_MAX {
        return Err(Exhausted);
      }
      ClaimKeepsOk(state, p, owner);
      var id := state.next + 1;
      state := state.(entries := state.entries[p := Holder(id, owner)], next := id);
      if owner.Local? {
        state := state.(local := state.local + 1);
      } else {
        state := state.(translation := state.translation + 1);
      }
      return Ok(Lease(p, id));
    }

    method Release(l: Lease)
      requires Valid()
      modifies this
      ensures Valid() && state == Drop(old(state), l)
    {
      DropKeepsOk(state, l);
      if l.port in state.entries && state.entries[l.port].id == l.id {
        CountsPositive(state, l.port);
        var owner := state.entries[l.port].owner;
        state := state.(entries := state.entries - {l.port});
        if owner.Local? {
          state := state.(local := state.local - 1);
        } else {
          state := state.(translation := state.translation - 1);
        }
      }
    }
  }
}
