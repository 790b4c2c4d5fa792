/** The mDNS publisher of src/mdns/publish.rs: probe, announce, ready, with transmission tokens. */
module Publisher {
  import opened Bytes
  import opened Results

  datatype State =
    | Probe(sent: nat, next: nat)
    | Announce(sent: nat, next: nat)
    | Ready
    | Paused
    | Failed(until: nat, notice: bool)

  /** What an owner projects for a publication: a digest, its unique names, and how many records.
      The digest does not cover which records are unique. */
  datatype Projection = Projection(digest: nat, names: set<nat>, records: nat)

  datatype Publication = Publication(digest: nat, names: set<nat>, state: State)

  datatype Offer = Goodbye | Of(id: nat, probe: bool)

  /** What a received message means to one publication with unique names: nothing, a response that
      conflicts with it, or a probe whose records outrank its own. */
  datatype Verdict = Clear | Conflict | Outranked

  const PROBE_GAP := 250
  const ANNOUNCE_GAP := 1000
  const PUBLICATIONS := 128
  const GOODBYES := 128

  function Next(s: State): Option<nat>
  {
    if s.Probe? || s.Announce? then Some(s.next) else None
  }

  predicate IsReady(s: State) { s.Ready? || (s.Announce? && s.sent >= 1) }

  predicate Probing(s: State) { s.Probe? && s.sent <= 2 }

  /** A rival's probe is a tie-break only against probes already sent. */
  predicate Contending(s: State) { s.Probe? && s.sent >= 1 }

  /** The states in which `receive` looks at a message at all. */
  predicate Listens(s: State) { Contending(s) || IsReady(s) }

  // ---------------------------------------------------------------- history

  /** What happened to a publication, in order. Messages are recorded with the state in which they
      found it and whether `receive` came to look at it, not by its reaction. `Renamed` is a change of
      its unique names that the digest does not show. */
  datatype Mark =
    | Probed(now: nat)
    | Announced(now: nat)
    | Conflicted(now: nat, standing: State, shown: bool)
    | Rivalled(now: nat, standing: State, shown: bool)
    | Renamed
    | Replaced(previous: Option<State>, same: bool, shared: bool)
    | Moved
    | Halted
    | Emptied

  /** What a history amounts to.
      `probes`: sent since probing last started over.
      `announcements`: sent since the records last changed.
      `valid`: probes since the last conflict, lost tie-break, change of names or of the link, each
      counted as it happened.
      `ignored`: since the first of `probes` there was such an event that the publication could not
      react to: a conflict found it waiting to announce changed records, a conflict or tie-break was
      kept from it, or its names changed under one digest.
      `unprobed`: it became ready at a poll that found nothing to probe, and did not start over.
      `silent`: so it did, and has announced nothing since.
      `fromFailed`: shared records last replaced a failed publication. */
  datatype Trace = Trace(probes: seq<nat>, announcements: seq<nat>, valid: seq<nat>,
                         ignored: bool, unprobed: bool, silent: bool, fromFailed: bool)

  const Fresh := Trace([], [], [], false, false, false, false)

  /** The states in which a conflict that has no effect leaves probes standing. */
  predicate Missed(s: State) { s.Announce? || s.Ready? || Contending(s) }

  function Noted(t: Trace, m: Mark): Trace
  {
    match m
    case Probed(now) => t.(probes := t.probes + [now], valid := t.valid + [now])
    case Announced(now) => t.(announcements := t.announcements + [now], silent := false)
    case Conflicted(_, s, shown) =>
      if shown && Listens(s) then Fresh else t.(valid := [], ignored := t.ignored || Missed(s))
    case Rivalled(_, s, shown) =>
      if !Contending(s) then t else if shown then Fresh else t.(valid := [], ignored := true)
    case Renamed => t.(valid := [], ignored := t.ignored || t.probes != [])
    case Replaced(s, same, shared) =>
      if s.Some? && IsReady(s.value) && same then t.(announcements := [], silent := false)
      else Fresh.(fromFailed := s.Some? && s.value.Failed? && shared)
    case Moved => Fresh
    case Halted => Fresh
    case Emptied => t.(unprobed := true, silent := true)
  }

  function TraceOf(log: seq<Mark>): Trace
  {
    if log == [] then Fresh else Noted(TraceOf(log[..|log| - 1]), log[|log| - 1])
  }

  lemma TraceAppend(log: seq<Mark>, m: Mark)
    ensures TraceOf(log + [m]) == Noted(TraceOf(log), m)
  {
    assert (log + [m])[..|log|] == log;
  }

  predicate Spaced(times: seq<nat>, gap: nat)
  {
    forall i :: 0 < i < |times| ==> SatAdd(times[i - 1], gap) <= times[i]
  }

  predicate Past(times: seq<nat>, clock: nat) { forall i :: 0 <= i < |times| ==> times[i] <= clock }

  /** Three probes, 250 ms apart, and no announcement sooner than 250 ms after them. */
  predicate Claims(probes: seq<nat>, announcements: seq<nat>)
  {
    && |probes| == 3 && Spaced(probes, PROBE_GAP)
    && (announcements != [] ==> SatAdd(probes[2], PROBE_GAP) <= announcements[0])
  }

  /** What the standard asks of a ready publication with unique names: three spaced probes since the
      last conflict, lost tie-break, change of names or of the link, and then an announcement. */
  predicate Claimed(t: Trace) { Claims(t.valid, t.announcements) && t.announcements != [] }

  /** A state that the history entitles a publication to. */
  predicate Earned(p: Publication, t: Trace, clock: nat)
  {
    && Past(t.probes, clock) && Past(t.announcements, clock)
    && (!t.unprobed ==> if t.ignored then |t.valid| < |t.probes| || p.names == {} else t.valid == t.probes)
    && match p.state
       case Probe(sent, next) =>
         && |t.probes| == sent <= 3 && t.announcements == [] && Spaced(t.probes, PROBE_GAP)
         && (sent > 0 ==> SatAdd(t.probes[sent - 1], PROBE_GAP) <= next)
         && !t.unprobed && !t.silent && (p.names == {} ==> t.fromFailed)
       case Announce(sent, next) =>
         && (p.names != {} && !t.unprobed ==> Claims(t.probes, t.announcements)
                                              && (sent == 0 ==> SatAdd(t.probes[2], PROBE_GAP) <= clock))
         && |t.announcements| == sent <= 1 && !t.silent
         && (sent == 1 ==> SatAdd(t.announcements[0], ANNOUNCE_GAP) <= next)
       case Ready =>
         && (p.names != {} && !t.unprobed ==> Claims(t.probes, t.announcements))
         && (if t.silent then t.unprobed && t.announcements == []
             else |t.announcements| == 2 && Spaced(t.announcements, ANNOUNCE_GAP))
       case Paused => t.probes == []
       case Failed(_, _) => t.probes == [] && p.names != {}
  }

  /** Ready means announced, unless a poll found nothing to send. Ready with unique names means
      claimed since the last conflict, tie-break and change if and only if none of them was
      ignored, unless a poll found nothing to probe. */
  lemma ReadyIsEarned(p: Publication, t: Trace, clock: nat)
    requires Earned(p, t, clock) && IsReady(p.state)
    ensures t.announcements == [] <==> t.silent
    ensures p.names != {} && !t.unprobed ==> (Claimed(t) <==> !t.ignored)
  {
  }

  lemma LaterIsEarned(p: Publication, t: Trace, clock: nat, now: nat)
    requires Earned(p, t, clock) && clock <= now
    ensures Earned(p, t, now)
  {
  }

  // ---------------------------------------------------------------- transitions of one publication

  /** A successfully sent offer. */
  function AfterSent(s: State, probe: bool, now: nat): State
  {
    if probe then (if s.Probe? then Probe(s.sent + 1, SatAdd(now, PROBE_GAP)) else s)
    else if s.Announce? && s.sent == 1 then Ready
    else Announce(1, SatAdd(now, ANNOUNCE_GAP))
  }

  function SentMark(probe: bool, now: nat): Mark { if probe then Probed(now) else Announced(now) }

  /** The offer still describes what the publication waits to send, or its probe was overtaken by a
      poll that found nothing to probe. */
  predicate Current(p: Publication, t: Trace, probe: bool, clock: nat)
  {
    || (Next(p.state).Some? && Next(p.state).value <= clock && (probe <==> Probing(p.state)))
    || (probe && p.state.Ready? && t.unprobed)
  }

  lemma SentIsEarned(p: Publication, t: Trace, probe: bool, now: nat)
    requires Earned(p, t, now) && Current(p, t, probe, now)
    ensures Earned(p.(state := AfterSent(p.state, probe, now)), Noted(t, SentMark(probe, now)), now)
  {
  }

  function Retried(s: State, now: nat): State
  {
    match s
    case Probe(sent, _) => Probe(sent, SatAdd(now, 100))
    case Announce(sent, _) => Announce(sent, SatAdd(now, 100))
    case _ => s
  }

  /** A failed transmission is tried again after 100 ms and costs nothing else. */
  lemma RetriedExactly(s: State, now: nat)
    ensures match s
            case Probe(sent, _) => Retried(s, now) == Probe(sent, SatAdd(now, 100))
            case Announce(sent, _) => Retried(s, now) == Announce(sent, SatAdd(now, 100))
            case _ => Retried(s, now) == s
  {
  }

  lemma RetryIsEarned(p: Publication, t: Trace, probe: bool, now: nat)
    requires Earned(p, t, now) && Current(p, t, probe, now) && now <= U64_MAX
    ensures Earned(p.(state := Retried(p.state, now)), t, now)
  {
  }

  /** The state a replacement starts in. */
  function Restarted(previous: Option<Publication>, names: set<nat>, now: nat, draw: nat): State
  {
    if previous.Some? && IsReady(previous.value.state) && previous.value.names == names then Announce(0, now)
    else if previous.Some? && previous.value.state.Failed? then
      var at := SatAdd(now, draw);
      Probe(0, if at < previous.value.state.until then previous.value.state.until else at)
    else if names == {} then Announce(0, now)
    else Probe(0, SatAdd(now, draw))
  }

  function RestartMark(previous: Option<Publication>, names: set<nat>): Mark
  {
    if previous.Some? then Replaced(Some(previous.value.state), previous.value.names == names, names == {})
    else Replaced(None, false, names == {})
  }

  lemma RestartIsEarned(previous: Option<Publication>, t: Trace, next: Projection, now: nat, draw: nat)
    requires previous.Some? ==> Earned(previous.value, t, now)
    ensures Earned(Publication(next.digest, next.names, Restarted(previous, next.names, now, draw)),
                   Noted(t, RestartMark(previous, next.names)), now)
    ensures !IsReady(Restarted(previous, next.names, now, draw))
  {
  }

  /** Only a publication that was ready under the same names skips the probes; one that failed waits
      out its five seconds first; shared records need no probes otherwise. */
  lemma RestartedExactly(p: Publication, names: set<nat>, now: nat, draw: nat)
    requires now <= U64_MAX
    ensures Restarted(None, names, now, draw) == if names == {} then Announce(0, now) else Probe(0, SatAdd(now, draw))
    ensures p.state.Ready? || (p.state.Announce? && p.state.sent >= 1) ==>
              Restarted(Some(p), names, now, draw) == if names == {} || p.names == names then Announce(0, now) else Probe(0, SatAdd(now, draw))
    ensures p.state.Failed? ==>
              var s := Restarted(Some(p), names, now, draw);
              s.Probe? && s.sent == 0 && s.next >= p.state.until && s.next >= SatAdd(now, draw) && s.next in {p.state.until, SatAdd(now, draw)}
    ensures p.state.Probe? || p.state.Paused? || (p.state.Announce? && p.state.sent == 0) ==>
              Restarted(Some(p), names, now, draw) == if names == {} then Announce(0, now) else Probe(0, SatAdd(now, draw))
  {
  }

  /** What a message does to a publication. */
  function Heard(p: Publication, v: Verdict, now: nat, draw: nat): Publication
  {
    if p.names == {} || !Listens(p.state) then p
    else if v.Conflict? then
      p.(state := if Contending(p.state) then Failed(SatAdd(now, 5000), true) else Probe(0, SatAdd(now, draw)))
    else if v.Outranked? && Contending(p.state) then p.(state := Probe(0, SatAdd(now, 1000)))
    else p
  }

  /** A conflict fails a publication that has probed, for five seconds, and sends a ready one back to
      probing; a better rival's probe costs a second; nothing else changes anything. */
  lemma HeardExactly(p: Publication, v: Verdict, now: nat, draw: nat)
    ensures var q := Heard(p, v, now, draw);
            && q.digest == p.digest && q.names == p.names
            && (p.names == {} || v.Clear? ==> q == p)
            && (p.names != {} && v.Conflict? ==>
                  match p.state
                  case Probe(sent, _) => q.state == if sent == 0 then p.state else Failed(SatAdd(now, 5000), true)
                  case Announce(sent, _) => q.state == if sent == 0 then p.state else Probe(0, SatAdd(now, draw))
                  case Ready => q.state == Probe(0, SatAdd(now, draw))
                  case _ => q.state == p.state)
            && (p.names != {} && v.Outranked? ==>
                  q.state == if p.state.Probe? && p.state.sent > 0 then Probe(0, SatAdd(now, 1000)) else p.state)
  {
  }

  function Met(p: Publication, v: Verdict, shown: bool, now: nat, draw: nat): Publication
  {
    if shown then Heard(p, v, now, draw) else p
  }

  /** A message is recorded in whatever state it finds the publication. */
  function HeardMarks(p: Publication, v: Verdict, now: nat, shown: bool): seq<Mark>
  {
    if p.names == {} || v.Clear? then []
    else if v.Conflict? then [Conflicted(now, p.state, shown)]
    else [Rivalled(now, p.state, shown)]
  }

  lemma HeardIsEarned(p: Publication, log: seq<Mark>, v: Verdict, shown: bool, now: nat, draw: nat)
    requires Earned(p, TraceOf(log), now)
    ensures Earned(Met(p, v, shown, now, draw), TraceOf(log + HeardMarks(p, v, now, shown)), now)
    ensures v.Conflict? && p.names != {} ==> TraceOf(log + HeardMarks(p, v, now, shown)).valid == []
    ensures v.Outranked? && p.names != {} && Contending(p.state) ==> TraceOf(log + HeardMarks(p, v, now, shown)).valid == []
  {
    hide TraceOf;
    var marks := HeardMarks(p, v, now, shown);
    if marks == [] {
      assert log + marks == log;
    } else {
      assert marks == [marks[0]];
      TraceAppend(log, marks[0]);
    }
  }

  lemma RenamedIsEarned(p: Publication, t: Trace, now: nat)
    requires Earned(p, t, now)
    ensures Earned(p, Noted(t, Renamed), now)
  {
  }

  /** What a change of availability does. */
  function Reset(p: Publication, now: nat, draw: nat): Publication
  {
    if p.state.Paused? then p
    else p.(state := if p.names == {} then Announce(0, now) else Probe(0, SatAdd(now, draw)))
  }

  lemma ResetExactly(p: Publication, now: nat, draw: nat)
    ensures var q := Reset(p, now, draw);
            && q.digest == p.digest && q.names == p.names
            && (p.state.Paused? ==> q.state == Paused)
            && (!p.state.Paused? && p.names == {} ==> q.state == Announce(0, now))
            && (!p.state.Paused? && p.names != {} ==> q.state == Probe(0, SatAdd(now, draw)))
  {
  }

  lemma ResetIsEarned(p: Publication, t: Trace, now: nat, draw: nat)
    requires Earned(p, t, now)
    ensures Earned(Reset(p, now, draw), Fresh, now)
  {
  }

  lemma PausedIsEarned(p: Publication, now: nat)
    requires p.state.Paused?
    ensures Earned(p, Fresh, now)
  {
  }

  lemma EmptiedIsEarned(p: Publication, t: Trace, now: nat)
    requires Earned(p, t, now) && p.state.Probe?
    ensures Earned(p.(state := Ready), Noted(t, Emptied), now)
    ensures p.names == {} ==> t.fromFailed
  {
  }

  // ---------------------------------------------------------------- when the promise fails

  /** A conflict that arrives while changed records wait for their first announcement is ignored:
      with that announcement the publication is ready on probes older than the conflict. */
  lemma IgnoredConflict(p: Publication, log: seq<Mark>, now: nat, draw: nat)
    requires p.names != {} && p.state.Announce? && p.state.sent == 0 && p.state.next <= now
    requires Earned(p, TraceOf(log), now) && !TraceOf(log).unprobed
    ensures Heard(p, Conflict, now, draw) == p
    ensures var after := log + HeardMarks(p, Conflict, now, true) + [Announced(now)];
            var q := p.(state := AfterSent(p.state, false, now));
            && Earned(q, TraceOf(after), now) && IsReady(q.state) && !Claimed(TraceOf(after))
            && TraceOf(after).ignored && |TraceOf(after).probes| == 3 && TraceOf(after).valid == []
  {
    hide TraceOf;
    var m := Conflicted(now, p.state, true);
    TraceAppend(log, m);
    TraceAppend(log + [m], Announced(now));
    SentIsEarned(p, TraceOf(log + [m]), false, now);
  }

  /** A conflict kept from a publication that probes leaves it probing; however it goes on to be
      ready, without starting over, the probes sent before do not count. */
  lemma KeptConflict(p: Publication, log: seq<Mark>, now: nat)
    requires p.names != {} && Contending(p.state) && Earned(p, TraceOf(log), now)
    ensures var t := TraceOf(log + HeardMarks(p, Conflict, now, false));
            Earned(p, t, now) && t.ignored && t.valid == [] && |t.probes| == p.state.sent >= 1
  {
    hide TraceOf;
    TraceAppend(log, Conflicted(now, p.state, false));
  }

  /** A failed publication that shared records replace goes back to probing, finds nothing to probe
      and is ready, and nothing is ever announced. */
  lemma SharedAfterFailure(p: Publication, log: seq<Mark>, next: Projection, now: nat, draw: nat)
    requires p.state.Failed? && next.names == {} && Earned(p, TraceOf(log), now)
    ensures var q := Publication(next.digest, {}, Restarted(Some(p), {}, now, draw));
            var after := log + [RestartMark(Some(p), {})];
            && Probing(q.state) && TraceOf(after).fromFailed && Earned(q, TraceOf(after), now)
            && Earned(q.(state := Ready), TraceOf(after + [Emptied]), now)
            && TraceOf(after + [Emptied]).announcements == [] && TraceOf(after + [Emptied]).silent
  {
    hide TraceOf;
    TraceAppend(log, RestartMark(Some(p), {}));
    TraceAppend(log + [RestartMark(Some(p), {})], Emptied);
    RestartIsEarned(Some(p), TraceOf(log), next, now, draw);
  }

  // ---------------------------------------------------------------- the publisher

  /** (next, id), the order in which due publications are served. */
  predicate Sooner(publications: map<nat, Publication>, a: nat, b: nat)
    requires a in publications && b in publications
    requires Next(publications[a].state).Some? && Next(publications[b].state).Some?
  {
    var x, y := Next(publications[a].state).value, Next(publications[b].state).value;
    x < y || (x == y && a <= b)
  }

  function Due(publications: map<nat, Publication>, now: nat): set<nat>
  {
    set id | id in publications && Next(publications[id].state).Some? && Next(publications[id].state).value <= now
  }

  /** It has something to send now. */
  ghost predicate Waits(publications: map<nat, Publication>, now: nat, id: nat)
  {
    id in publications && (publications[id].state.Probe? || publications[id].state.Announce?) && publications[id].state.next <= now
  }

  /** The publication that has been due longest, and of several the one with the least id. */
  ghost predicate First(publications: map<nat, Publication>, now: nat, id: nat)
  {
    && Waits(publications, now, id)
    && forall i :: Waits(publications, now, i) ==>
         || publications[id].state.next < publications[i].state.next
         || (publications[id].state.next == publications[i].state.next && id <= i)
  }

  lemma DueFirst(publications: map<nat, Publication>, now: nat, id: nat)
    requires id in Due(publications, now) && forall i :: i in Due(publications, now) ==> Sooner(publications, id, i)
    ensures First(publications, now, id)
  {
    forall i | Waits(publications, now, i)
      ensures i in Due(publications, now)
    {
    }
  }

  method Earliest(publications: map<nat, Publication>, due: set<nat>) returns (id: nat)
    requires due != {} && forall i :: i in due ==> i in publications && Next(publications[i].state).Some?
    ensures id in due && forall i :: i in due ==> Sooner(publications, id, i)
  {
    id :| id in due;
    var left := due - {id};
    while left != {}
      invariant id in due && left <= due && forall i :: i in due - left ==> Sooner(publications, id, i)
      decreases |left|
    {
      var i :| i in left;
      if !Sooner(publications, id, i) {
        SoonerTotal(publications, id, i, due);
        id := i;
      }
      left := left - {i};
    }
    assert due - left == due;
  }

  lemma SoonerTotal(publications: map<nat, Publication>, a: nat, b: nat, due: set<nat>)
    requires a in due && b in due && forall i :: i in due ==> i in publications && Next(publications[i].state).Some?
    requires !Sooner(publications, a, b)
    ensures Sooner(publications, b, b) && forall i :: i in due && Sooner(publications, a, i) ==> Sooner(publications, b, i)
  {
  }

  /** Every publication has earned its state. */
  ghost predicate AllEarned(publications: map<nat, Publication>, logs: map<nat, seq<Mark>>, clock: nat)
  {
    && logs.Keys == publications.Keys
    && forall id :: id in publications ==> Earned(publications[id], TraceOf(logs[id]), clock)
  }

  lemma EarnedAt(publications: map<nat, Publication>, logs: map<nat, seq<Mark>>, clock: nat)
    requires AllEarned(publications, logs, clock)
    ensures logs.Keys == publications.Keys
    ensures forall id :: id in publications ==> Earned(publications[id], TraceOf(logs[id]), clock)
  {
  }

  lemma AllLater(publications: map<nat, Publication>, logs: map<nat, seq<Mark>>, clock: nat, now: nat)
    requires AllEarned(publications, logs, clock) && clock <= now
    ensures AllEarned(publications, logs, now)
  {
    hide Earned, TraceOf;
    forall id | id in publications
      ensures Earned(publications[id], TraceOf(logs[id]), now)
    {
      LaterIsEarned(publications[id], TraceOf(logs[id]), clock, now);
    }
  }

  /** One publication changes. */
  lemma Put(publications: map<nat, Publication>, logs: map<nat, seq<Mark>>, clock: nat, id: nat, p: Publication, log: seq<Mark>)
    requires AllEarned(publications, logs, clock) && Earned(p, TraceOf(log), clock)
    ensures AllEarned(publications[id := p], logs[id := log], clock)
    ensures |publications[id := p]| == if id in publications then |publications| else |publications| + 1
    ensures id in publications ==> publications[id := p].Keys == publications.Keys
  {
    hide Earned, TraceOf;
    Sizes(publications, id, p);
    var after, later := publications[id := p], logs[id := log];
    assert later.Keys == logs.Keys + {id} && after.Keys == publications.Keys + {id};
    forall i | i in after
      ensures Earned(after[i], TraceOf(later[i]), clock)
    {
      if i != id { assert after[i] == publications[i] && later[i] == logs[i]; }
    }
  }

  lemma Remove(publications: map<nat, Publication>, logs: map<nat, seq<Mark>>, clock: nat, id: nat)
    requires AllEarned(publications, logs, clock)
    ensures AllEarned(publications - {id}, logs - {id}, clock) && |publications - {id}| <= |publications|
  {
    hide Earned, TraceOf;
    if id in publications { Sizes(publications, id, publications[id]); }
    assert id !in publications ==> publications - {id} == publications;
  }

  lemma Sizes(m: map<nat, Publication>, id: nat, p: Publication)
    ensures |m[id := p]| == if id in m then |m| else |m| + 1
    ensures |m - {id}| == if id in m then |m| - 1 else |m|
  {
    assert m[id := p].Keys == m.Keys + {id} && (m - {id}).Keys == m.Keys - {id};
    assert |m| == |m.Keys| && |m[id := p]| == |m[id := p].Keys| && |m - {id}| == |(m - {id}).Keys|;
  }

  ghost function LogOf(logs: map<nat, seq<Mark>>, id: nat): seq<Mark> { if id in logs then logs[id] else [] }

  function Existing(publications: map<nat, Publication>, id: nat): Option<Publication>
  {
    if id in publications then Some(publications[id]) else None
  }

  /** The effect of feedback for the current token. */
  ghost predicate Acted(o: Offer, success: bool, now: nat, before: map<nat, Publication>, was: map<nat, seq<Mark>>, goodbyes: seq<nat>,
                        after: map<nat, Publication>, logs: map<nat, seq<Mark>>, goodbyes': seq<nat>)
  {
    match o
    case Goodbye =>
      && after == before && logs == was && goodbyes != []
      && goodbyes' == if success then goodbyes[1..] else goodbyes[0 := SatAdd(now, 100)]
    case Of(id, probe) =>
      && goodbyes' == goodbyes && id in before && id in was
      && after == before[id := before[id].(state :=
           if success then AfterSent(before[id].state, probe, now) else Retried(before[id].state, now))]
      && logs == was[id := if success then was[id] + [SentMark(probe, now)] else was[id]]
  }

  /** A poll that comes to the publication `id`. */
  ghost predicate Served(id: nat, before: map<nat, Publication>, was: map<nat, seq<Mark>>, data: Projection,
                         quiet: bool, offers: bool, full: bool, r: Result<Option<nat>, ()>,
                         after: map<nat, Publication>, logs: map<nat, seq<Mark>>, offered: Option<(nat, Offer)>)
    requires id in before && id in was
  {
    var p := before[id];
    if data.digest != p.digest then quiet && r == Err(())
    else if Probing(p.state) && data.names == {} then
      && r == Ok(None) && after == before[id := p.(state := Ready)] && logs == was[id := was[id] + [Emptied]]
      && (p.names != data.names || TraceOf(was[id]).fromFailed)
    else if full then quiet && r == Err(())
    else offers && offered.Some? && offered.value.1 == Of(id, Probing(p.state))
  }

  class Queue {
    var publications: map<nat, Publication>
    /** When each waiting goodbye may be sent. */
    var goodbyes: seq<nat>
    var offered: Option<(nat, Offer)>
    var nextToken: nat
    var up: bool
    ghost var logs: map<nat, seq<Mark>>
    ghost var clock: nat

    ghost predicate Valid()
      reads this
    {
      && AllEarned(publications, logs, clock)
      && (offered.Some? ==> offered.value.0 == nextToken && OfferOk(offered.value.1))
      && |publications| <= PUBLICATIONS && |goodbyes| <= GOODBYES
      && clock <= U64_MAX
    }

    ghost predicate OfferOk(o: Offer)
      reads this
    {
      match o
      case Goodbye => goodbyes != []
      case Of(id, probe) => id in publications && id in logs && Current(publications[id], TraceOf(logs[id]), probe, clock)
    }

    constructor ()
      ensures Valid() && publications == map[] && up && offered == None && clock == 0 && nextToken == 0 && goodbyes == [] && logs == map[]
    {
      publications, goodbyes, offered, nextToken, up := map[], [], None, 0, true;
      logs, clock := map[], 0;
    }

    /** A ready publication with unique names was claimed since the last conflict exactly if no
        conflict was ignored, unless a poll found nothing to probe. */
    method IsReadyNow(id: nat) returns (r: bool)
      requires Valid()
      ensures r <==> up && id in publications && IsReady(publications[id].state)
      ensures r ==> id in logs && var t := TraceOf(logs[id]);
                && (t.announcements == [] <==> t.silent)
                && (publications[id].names != {} && !t.unprobed ==> (Claimed(t) <==> !t.ignored))
    {
      hide TraceOf, Earned;
      EarnedAt(publications, logs, clock);
      r := up && id in publications && IsReady(publications[id].state);
      if r { ReadyIsEarned(publications[id], TraceOf(logs[id]), clock); }
    }

    /** Time passes. */
    ghost method Advance(now: nat)
      requires Valid() && clock <= now <= U64_MAX
      modifies this`clock
      ensures Valid() && clock == now
    {
      hide AllEarned, TraceOf;
      AllLater(publications, logs, clock, now);
      clock := now;
    }

    /** May the replacement go ahead, and does it leave records to take back? `room` stands for the
        limits on records and octets, `parting` for records that the new projection lacks. */
    method Replaceable(id: nat, was: Projection, latest: Projection, room: bool, parting: bool)
      returns (ok: bool, leaving: bool)
      requires |publications| <= PUBLICATIONS
      ensures leaving == (up && id in publications && IsReady(publications[id].state) && parting)
      ensures ok <==> && (if id in publications then publications[id].digest == was.digest else was.records == 0)
                      && (id !in publications && latest.records > 0 ==> |publications| < PUBLICATIONS)
                      && room && (leaving ==> |goodbyes| < GOODBYES)
    {
      var existing := Existing(publications, id);
      leaving := up && existing.Some? && IsReady(existing.value.state) && parting;
      if (existing.Some? && existing.value.digest != was.digest) || (existing.None? && was.records > 0) {
        return false, leaving;
      }
      var count := |publications| - (if existing.Some? then 1 else 0);
      ok := !(count + (if latest.records > 0 then 1 else 0) > PUBLICATIONS || !room || (leaving && |goodbyes| >= GOODBYES));
    }

    /** A new projection: unchanged digests change nothing; otherwise the publication starts over, or
        only announces again when it was ready under the same names. */
    method Replace(id: nat, was: Projection, latest: Projection, now: nat, draw: nat, room: bool, parting: bool)
      returns (r: Result<(), ()>)
      requires Valid() && clock <= now <= U64_MAX && draw <= 250
      modifies this
      ensures Valid() && clock == now && nextToken == old(nextToken) && up == old(up)
      ensures r.Err? ==> publications == old(publications) && goodbyes == old(goodbyes) && offered == old(offered) && logs == old(logs)
      ensures r.Ok? <==> && (if id in old(publications) then old(publications)[id].digest == was.digest else was.records == 0)
                         && (id !in old(publications) && latest.records > 0 ==> |old(publications)| < PUBLICATIONS)
                         && room && (old(Leaving(id, parting)) ==> |old(goodbyes)| < GOODBYES)
      ensures r.Ok? && id in old(publications) && old(publications)[id].digest == latest.digest ==>
                && publications == old(publications) && offered == old(offered) && goodbyes == old(goodbyes)
                && logs == if old(publications)[id].names == latest.names then old(logs)
                           else old(logs)[id := LogOf(old(logs), id) + [Renamed]]
      ensures r.Ok? && !(id in old(publications) && old(publications)[id].digest == latest.digest) ==>
                && offered == None && goodbyes == old(goodbyes) + (if old(Leaving(id, parting)) then [now] else [])
                && (latest.records == 0 ==> publications == old(publications) - {id} && logs == old(logs) - {id})
                && (latest.records > 0 ==>
                      var p := Existing(old(publications), id);
                      && publications == old(publications)[id :=
                           Publication(latest.digest, latest.names, Restarted(p, latest.names, now, draw))]
                      && logs == old(logs)[id := LogOf(old(logs), id) + [RestartMark(p, latest.names)]])
    {
      hide Earned, Current, AllEarned, TraceOf, Restarted, RestartMark;
      Advance(now);
      var ok, leaving := Replaceable(id, was, latest, room, parting);
      if !ok { return Err(()); }
      if id in publications && publications[id].digest == latest.digest {
        if publications[id].names != latest.names { Overlook(id); }
        return Ok(());
      }
      if latest.records > 0 {
        Install(id, latest, now, draw);
      } else {
        Remove(publications, logs, now, id);
        publications, logs := publications - {id}, logs - {id};
      }
      if leaving { goodbyes := goodbyes + [now]; }
      offered := None;
      return Ok(());
    }

    /** The digest hides that the unique names changed. */
    ghost method Overlook(id: nat)
      requires Valid() && id in publications
      modifies this`logs
      ensures Valid() && logs == old(logs)[id := LogOf(old(logs), id) + [Renamed]]
    {
      hide Earned, AllEarned, TraceOf;
      EarnedAt(publications, logs, clock);
      RenamedIsEarned(publications[id], TraceOf(logs[id]), clock);
      TraceAppend(logs[id], Renamed);
      Put(publications, logs, clock, id, publications[id], logs[id] + [Renamed]);
      assert publications[id := publications[id]] == publications;
      logs := logs[id := logs[id] + [Renamed]];
    }

    ghost predicate Leaving(id: nat, parting: bool)
      reads this
    {
      up && id in publications && IsReady(publications[id].state) && parting
    }

    method Install(id: nat, latest: Projection, now: nat, draw: nat)
      requires clock == now && AllEarned(publications, logs, now) && (id in publications || |publications| < PUBLICATIONS)
      modifies this`publications, this`logs
      ensures AllEarned(publications, logs, now) && |publications| <= if id in old(publications) then |old(publications)| else |old(publications)| + 1
      ensures var p := Existing(old(publications), id);
              && publications == old(publications)[id := Publication(latest.digest, latest.names, Restarted(p, latest.names, now, draw))]
              && logs == old(logs)[id := LogOf(old(logs), id) + [RestartMark(p, latest.names)]]
    {
      hide Earned, AllEarned, TraceOf, Restarted, RestartMark;
      EarnedAt(publications, logs, now);
      var p := Existing(publications, id);
      ghost var log := LogOf(logs, id);
      RestartIsEarned(p, TraceOf(log), latest, now, draw);
      TraceAppend(log, RestartMark(p, latest.names));
      var q := Publication(latest.digest, latest.names, Restarted(p, latest.names, now, draw));
      Put(publications, logs, now, id, q, log + [RestartMark(p, latest.names)]);
      publications, logs := publications[id := q], logs[id := log + [RestartMark(p, latest.names)]];
    }

    /** The link comes or goes: everything that is not paused starts over. */
    method Available(present: bool, now: nat, draws: map<nat, nat>)
      requires Valid() && clock <= now <= U64_MAX && publications.Keys <= draws.Keys
      modifies this
      ensures Valid() && clock == now && up == present && nextToken == old(nextToken)
      ensures up == old(up) ==> publications == old(publications) && logs == old(logs) && offered == old(offered)
      ensures up != old(up) ==>
                && offered == None && goodbyes == []
                && publications == (map id | id in old(publications) && id in draws :: Reset(old(publications)[id], now, draws[id]))
                && logs == (map id | id in old(logs) :: old(logs)[id] + [Moved])
    {
      hide Earned, Current, AllEarned, Reset, Resetting, TraceOf;
      Advance(now);
      if up == present { return; }
      EarnedAt(publications, logs, now);
      ResettingStarts(publications, logs, draws, now);
      up, offered, goodbyes := present, None, [];
      var left := publications.Keys;
      while left != {}
        invariant Valid() && clock == now && offered == None && up == present && goodbyes == [] && nextToken == old(nextToken)
        invariant Resetting(old(publications), old(logs), publications, logs, draws, now, left)
        decreases |left|
      {
        var id :| id in left;
        ResettingStep(old(publications), old(logs), publications, logs, draws, now, left, id);
        ResetOne(publications, logs, now, id, draws[id]);
        publications := publications[id := Reset(publications[id], now, draws[id])];
        logs := logs[id := logs[id] + [Moved]];
        left := left - {id};
      }
      ResettingEnds(old(publications), old(logs), publications, logs, draws, now);
    }

    /** The next thing to send: a due goodbye, or else what the publication due longest waits for.
        One that probes and whose projection has no unique names becomes ready instead. A digest is
        taken to tell whether there are records at all, not which of them are unique. */
    method Poll(source: map<nat, Projection>, now: nat) returns (r: Result<Option<nat>, ()>)
      requires Valid() && clock <= now <= U64_MAX
      requires forall id :: id in publications ==> id in source && (source[id].digest == publications[id].digest ==> source[id].records > 0)
      modifies this
      ensures Valid() && clock == now && up == old(up) && goodbyes == old(goodbyes)
      ensures var quiet := publications == old(publications) && logs == old(logs) && offered == old(offered) && nextToken == old(nextToken);
              var offers := publications == old(publications) && logs == old(logs) && offered.Some?
                            && r == Ok(Some(nextToken)) && offered.value.0 == nextToken == old(nextToken) + 1;
              var full := old(nextToken) >= U64_MAX;
              if !up then quiet && r == Ok(None)
              else if goodbyes != [] && goodbyes[0] <= now then
                if full then quiet && r == Err(()) else offers && offered.value.1 == Goodbye
              else if forall id :: !Waits(old(publications), now, id) then quiet && r == Ok(None)
              else exists id :: First(old(publications), now, id) && id in source && id in old(logs)
                                && Served(id, old(publications), old(logs), source[id], quiet, offers, full, r, publications, logs, offered)
                                && (offered == old(offered) || offers)
    {
      hide Earned, AllEarned, TraceOf;
      Advance(now);
      EarnedAt(publications, logs, now);
      if !up { return Ok(None); }
      if goodbyes != [] && goodbyes[0] <= now {
        if nextToken >= U64_MAX { return Err(()); }
        nextToken := nextToken + 1;
        offered := Some((nextToken, Goodbye));
        return Ok(Some(nextToken));
      }
      var due := Due(publications, now);
      if due == {} {
        assert forall id :: Waits(publications, now, id) ==> id in due;
        return Ok(None);
      }
      var id := Earliest(publications, due);
      DueFirst(publications, now, id);
      if source[id].digest != publications[id].digest { return Err(()); }
      var probe := Probing(publications[id].state);
      if (if probe then source[id].names == {} else source[id].records == 0) {
        BecomeReady(id, now);
        return Ok(None);
      }
      if nextToken >= U64_MAX { return Err(()); }
      nextToken := nextToken + 1;
      offered := Some((nextToken, Of(id, probe)));
      return Ok(Some(nextToken));
    }

    /** There was nothing to probe. */
    method BecomeReady(id: nat, now: nat)
      requires Valid() && clock == now && id in publications && Probing(publications[id].state)
      modifies this`publications, this`logs
      ensures Valid() && id in old(logs)
      ensures publications == old(publications)[id := old(publications)[id].(state := Ready)]
      ensures logs == old(logs)[id := old(logs)[id] + [Emptied]]
      ensures old(publications)[id].names == {} ==> TraceOf(old(logs)[id]).fromFailed
    {
      hide Earned, AllEarned, TraceOf;
      EarnedAt(publications, logs, now);
      EmptyOne(publications, logs, now, id);
      publications := publications[id := publications[id].(state := Ready)];
      logs := logs[id := logs[id] + [Emptied]];
    }

    /** Feedback for a token; a superseded one changes nothing. */
    method Sent(token: nat, success: bool, now: nat)
      requires Valid() && clock <= now <= U64_MAX
      modifies this
      ensures Valid() && clock == now && nextToken == old(nextToken) && up == old(up)
      ensures old(offered).None? || old(offered).value.0 != token ==>
                publications == old(publications) && goodbyes == old(goodbyes) && offered == old(offered) && logs == old(logs)
      ensures old(offered).Some? && old(offered).value.0 == token ==>
                offered == None && Acted(old(offered).value.1, success, now, old(publications), old(logs), old(goodbyes),
                                         publications, logs, goodbyes)
    {
      hide Earned, AllEarned, TraceOf, AfterSent, Retried;
      Advance(now);
      if offered.None? || offered.value.0 != token { return; }
      var offer := offered.value.1;
      if offer.Of? {
        FeedBack(offer.id, offer.probe, success, now);
      } else if success {
        goodbyes := goodbyes[1..];
      } else {
        goodbyes := goodbyes[0 := SatAdd(now, 100)];
      }
      offered := None;
    }

    method FeedBack(id: nat, probe: bool, success: bool, now: nat)
      requires AllEarned(publications, logs, now) && now <= U64_MAX
      requires id in publications && id in logs && Current(publications[id], TraceOf(logs[id]), probe, now)
      modifies this`publications, this`logs
      ensures AllEarned(publications, logs, now) && |publications| == |old(publications)|
      ensures Acted(Of(id, probe), success, now, old(publications), old(logs), goodbyes, publications, logs, goodbyes)
    {
      hide Earned, AllEarned, TraceOf, AfterSent, Retried, Current;
      SentOne(publications, logs, now, id, probe);
      var p := publications[id];
      if success {
        publications := publications[id := p.(state := AfterSent(p.state, probe, now))];
        logs := logs[id := logs[id] + [SentMark(probe, now)]];
      } else {
        publications := publications[id := p.(state := Retried(p.state, now))];
        assert logs[id := logs[id]] == logs;
      }
    }

    method Pause(id: nat)
      requires Valid()
      modifies this
      ensures Valid() && clock == old(clock) && goodbyes == old(goodbyes) && nextToken == old(nextToken) && up == old(up)
      ensures id !in old(publications) || old(publications)[id].state.Paused? ==>
                publications == old(publications) && offered == old(offered) && logs == old(logs)
      ensures id in old(publications) && !old(publications)[id].state.Paused? ==>
                && publications == old(publications)[id := old(publications)[id].(state := Paused)] && offered == None
                && logs == old(logs)[id := LogOf(old(logs), id) + [Halted]]
    {
      hide Earned, AllEarned, TraceOf;
      if id in publications && !publications[id].state.Paused? {
        EarnedAt(publications, logs, clock);
        var p := publications[id].(state := Paused);
        PausedIsEarned(p, clock);
        TraceAppend(logs[id], Halted);
        Put(publications, logs, clock, id, p, logs[id] + [Halted]);
        publications, logs, offered := publications[id := p], logs[id := logs[id] + [Halted]], None;
      }
    }

    /** A message: each publication that probes or is ready may have to start over or fail, up to the
        first of them that is in `failing`, where the walk ends with an error: its projection is
        stale or unusable. All of them record the message. */
    method Receive(verdicts: map<nat, Verdict>, failing: set<nat>, now: nat, draws: map<nat, nat>) returns (r: Result<(), ()>)
      requires Valid() && clock <= now <= U64_MAX && publications.Keys <= draws.Keys && publications.Keys <= verdicts.Keys
      modifies this
      ensures Valid() && clock == now && nextToken == old(nextToken) && up == old(up) && goodbyes == old(goodbyes)
      ensures publications.Keys == old(publications).Keys && logs.Keys == old(logs).Keys == publications.Keys
      ensures !up ==> r == Ok(()) && publications == old(publications) && logs == old(logs)
      ensures up ==> && (r.Err? <==> exists id :: Stops(old(publications), failing, id))
                     && Walked(old(publications), old(logs), publications, logs, verdicts, failing, draws, now)
      ensures offered == if publications == old(publications) then old(offered) else None
    {
      hide Earned, Current, AllEarned, Heard, HeardMarks, Hearing, TraceOf, Walked, Listens, Stops, MissedLogs;
      Advance(now);
      EarnedAt(publications, logs, now);
      HearingStarts(publications, logs, verdicts, failing, draws, now);
      if !up { return Ok(()); }
      var left := publications.Keys;
      while left != {}
        invariant AllEarned(publications, logs, now) && |publications| == |old(publications)|
        invariant clock == now && nextToken == old(nextToken) && up == old(up) && goodbyes == old(goodbyes)
        invariant Hearing(old(publications), old(logs), publications, logs, verdicts, failing, draws, now, left)
        invariant offered == if publications == old(publications) then old(offered) else None
        decreases |left|
      {
        var id := LeastOf(left);
        HearingAt(old(publications), old(logs), publications, logs, verdicts, failing, draws, now, left, id);
        if Listens(publications[id].state) && id in failing {
          ghost var missed := MissedLogs(publications, logs, verdicts, now, left);
          StopAt(old(publications), old(logs), publications, logs, verdicts, failing, draws, now, left, id);
          logs := missed;
          return Err(());
        }
        HearingStep(old(publications), old(logs), publications, logs, verdicts, failing, draws, now, left, id);
        HearOne(publications, logs, now, id, verdicts[id], draws[id]);
        var p := publications[id];
        var q := Heard(p, verdicts[id], now, draws[id]);
        logs := logs[id := logs[id] + HeardMarks(p, verdicts[id], now, true)];
        if q != p { publications, offered := publications[id := q], None; }
        left := left - {id};
      }
      HearingEnds(old(publications), old(logs), publications, logs, verdicts, failing, draws, now);
      OffersStand(old(publications), old(logs), publications, logs, verdicts, failing, draws, now);
      return Ok(());
    }
  }

  method LeastOf(ids: set<nat>) returns (id: nat)
    requires ids != {}
    ensures id in ids && forall i :: i in ids ==> id <= i
  {
    id :| id in ids;
    var left := ids - {id};
    while left != {}
      invariant id in ids && left <= ids && forall i :: i in ids && i !in left ==> id <= i
      decreases |left|
    {
      var i :| i in left;
      if i < id { id := i; }
      left := left - {i};
    }
  }

  /** The walk of `receive` ends with an error at this publication, if it comes so far. */
  ghost predicate Stops(publications: map<nat, Publication>, failing: set<nat>, id: nat)
  {
    id in publications && Listens(publications[id].state) && id in failing
  }

  /** The walk, in order of ids, comes past this publication. */
  ghost predicate Reached(publications: map<nat, Publication>, failing: set<nat>, id: nat)
  {
    forall j: nat :: j <= id ==> !Stops(publications, failing, j)
  }

  /** What a message leaves: publications the walk came past reacted, all of them recorded it. */
  ghost predicate Walked(before: map<nat, Publication>, was: map<nat, seq<Mark>>, after: map<nat, Publication>, logs: map<nat, seq<Mark>>,
                         verdicts: map<nat, Verdict>, failing: set<nat>, draws: map<nat, nat>, now: nat)
  {
    && after.Keys == before.Keys == logs.Keys == was.Keys && before.Keys <= draws.Keys && before.Keys <= verdicts.Keys
    && forall id :: id in before ==>
         && after[id] == Met(before[id], verdicts[id], Reached(before, failing, id), now, draws[id])
         && logs[id] == was[id] + HeardMarks(before[id], verdicts[id], now, Reached(before, failing, id))
  }

  // ---------------------------------------------------------------- one publication at a time

  lemma ResetOne(publications: map<nat, Publication>, logs: map<nat, seq<Mark>>, now: nat, id: nat, draw: nat)
    requires AllEarned(publications, logs, now) && id in publications
    ensures id in logs
    ensures AllEarned(publications[id := Reset(publications[id], now, draw)], logs[id := logs[id] + [Moved]], now)
    ensures |publications[id := Reset(publications[id], now, draw)]| == |publications|
  {
    hide Earned, TraceOf, AllEarned, Reset;
    EarnedAt(publications, logs, now);
    ResetIsEarned(publications[id], TraceOf(logs[id]), now, draw);
    TraceAppend(logs[id], Moved);
    Put(publications, logs, now, id, Reset(publications[id], now, draw), logs[id] + [Moved]);
  }

  lemma EmptyOne(publications: map<nat, Publication>, logs: map<nat, seq<Mark>>, now: nat, id: nat)
    requires AllEarned(publications, logs, now) && id in publications && publications[id].state.Probe?
    ensures id in logs
    ensures AllEarned(publications[id := publications[id].(state := Ready)], logs[id := logs[id] + [Emptied]], now)
    ensures |publications[id := publications[id].(state := Ready)]| == |publications|
    ensures publications[id].names == {} ==> TraceOf(logs[id]).fromFailed
    ensures TraceOf(logs[id] + [Emptied]).unprobed
  {
    hide TraceOf, AllEarned, Earned;
    EarnedAt(publications, logs, now);
    EmptiedIsEarned(publications[id], TraceOf(logs[id]), now);
    TraceAppend(logs[id], Emptied);
    Put(publications, logs, now, id, publications[id].(state := Ready), logs[id] + [Emptied]);
  }

  lemma SentOne(publications: map<nat, Publication>, logs: map<nat, seq<Mark>>, now: nat, id: nat, probe: bool)
    requires AllEarned(publications, logs, now) && id in publications && id in logs && now <= U64_MAX
    requires Current(publications[id], TraceOf(logs[id]), probe, now)
    ensures var p := publications[id];
            var q, r := p.(state := AfterSent(p.state, probe, now)), p.(state := Retried(p.state, now));
            && AllEarned(publications[id := q], logs[id := logs[id] + [SentMark(probe, now)]], now)
            && AllEarned(publications[id := r], logs, now)
            && |publications[id := q]| == |publications| == |publications[id := r]|
  {
    hide Earned, TraceOf, AllEarned, AfterSent, Retried, Current;
    EarnedAt(publications, logs, now);
    var p := publications[id];
    SentIsEarned(p, TraceOf(logs[id]), probe, now);
    RetryIsEarned(p, TraceOf(logs[id]), probe, now);
    TraceAppend(logs[id], SentMark(probe, now));
    Put(publications, logs, now, id, p.(state := AfterSent(p.state, probe, now)), logs[id] + [SentMark(probe, now)]);
    Put(publications, logs, now, id, p.(state := Retried(p.state, now)), logs[id]);
    assert logs[id := logs[id]] == logs;
  }

  lemma HearOne(publications: map<nat, Publication>, logs: map<nat, seq<Mark>>, now: nat, id: nat, v: Verdict, draw: nat)
    requires AllEarned(publications, logs, now) && id in publications
    ensures id in logs
    ensures var p := publications[id];
            && AllEarned(publications[id := Heard(p, v, now, draw)], logs[id := logs[id] + HeardMarks(p, v, now, true)], now)
            && |publications[id := Heard(p, v, now, draw)]| == |publications|
            && (Heard(p, v, now, draw) == p ==> publications[id := p] == publications)
  {
    hide Earned, TraceOf, AllEarned, Heard, HeardMarks;
    EarnedAt(publications, logs, now);
    var p := publications[id];
    HeardIsEarned(p, logs[id], v, true, now, draw);
    Put(publications, logs, now, id, Heard(p, v, now, draw), logs[id] + HeardMarks(p, v, now, true));
  }

  /** The logs when the walk ends before `left`. */
  ghost function MissedLogs(publications: map<nat, Publication>, logs: map<nat, seq<Mark>>, verdicts: map<nat, Verdict>,
                            now: nat, left: set<nat>): map<nat, seq<Mark>>
  {
    map id | id in logs ::
      if id in left && id in publications && id in verdicts then logs[id] + HeardMarks(publications[id], verdicts[id], now, false)
      else logs[id]
  }

  lemma MissAll(publications: map<nat, Publication>, logs: map<nat, seq<Mark>>, verdicts: map<nat, Verdict>, now: nat, left: set<nat>)
    requires AllEarned(publications, logs, now)
    ensures AllEarned(publications, MissedLogs(publications, logs, verdicts, now, left), now)
  {
    hide Earned, TraceOf, HeardMarks;
    var missed := MissedLogs(publications, logs, verdicts, now, left);
    forall id | id in publications
      ensures Earned(publications[id], TraceOf(missed[id]), now)
    {
      if id in left && id in verdicts { HeardIsEarned(publications[id], logs[id], verdicts[id], false, now, 0); }
    }
  }

  /** The loop of `available` with `left` still to do. */
  ghost predicate Resetting(before: map<nat, Publication>, was: map<nat, seq<Mark>>, after: map<nat, Publication>, logs: map<nat, seq<Mark>>,
                            draws: map<nat, nat>, now: nat, left: set<nat>)
  {
    && after.Keys == before.Keys == logs.Keys == was.Keys && left <= before.Keys <= draws.Keys
    && (forall id :: id in left ==> after[id] == before[id] && logs[id] == was[id])
    && (forall id :: id in before && id !in left ==> after[id] == Reset(before[id], now, draws[id]) && logs[id] == was[id] + [Moved])
  }

  lemma ResettingStarts(publications: map<nat, Publication>, logs: map<nat, seq<Mark>>, draws: map<nat, nat>, now: nat)
    requires logs.Keys == publications.Keys <= draws.Keys
    ensures Resetting(publications, logs, publications, logs, draws, now, publications.Keys)
  {
  }

  lemma ResettingStep(before: map<nat, Publication>, was: map<nat, seq<Mark>>, after: map<nat, Publication>, logs: map<nat, seq<Mark>>,
                      draws: map<nat, nat>, now: nat, left: set<nat>, id: nat)
    requires Resetting(before, was, after, logs, draws, now, left) && id in left
    ensures id in after && id in draws && id in logs
    ensures Resetting(before, was, after[id := Reset(after[id], now, draws[id])], logs[id := logs[id] + [Moved]], draws, now, left - {id})
  {
    hide Reset;
  }

  lemma ResettingEnds(before: map<nat, Publication>, was: map<nat, seq<Mark>>, after: map<nat, Publication>, logs: map<nat, seq<Mark>>,
                      draws: map<nat, nat>, now: nat)
    requires Resetting(before, was, after, logs, draws, now, {})
    ensures after == (map id | id in before && id in draws :: Reset(before[id], now, draws[id]))
    ensures logs == (map id | id in was :: was[id] + [Moved])
  {
    hide Reset;
  }

  /** The loop of `receive` with `left` still to do. */
  ghost predicate Hearing(before: map<nat, Publication>, was: map<nat, seq<Mark>>, after: map<nat, Publication>, logs: map<nat, seq<Mark>>,
                          verdicts: map<nat, Verdict>, failing: set<nat>, draws: map<nat, nat>, now: nat, left: set<nat>)
  {
    && after.Keys == before.Keys == logs.Keys == was.Keys
    && left <= before.Keys <= draws.Keys && before.Keys <= verdicts.Keys
    && (forall id :: id in left ==> after[id] == before[id] && logs[id] == was[id])
    && (forall id :: id in before && id !in left ==>
          && !Stops(before, failing, id) && (forall j :: j in left ==> id < j)
          && after[id] == Heard(before[id], verdicts[id], now, draws[id])
          && logs[id] == was[id] + HeardMarks(before[id], verdicts[id], now, true))
  }

  lemma HearingStarts(publications: map<nat, Publication>, logs: map<nat, seq<Mark>>, verdicts: map<nat, Verdict>,
                      failing: set<nat>, draws: map<nat, nat>, now: nat)
    requires logs.Keys == publications.Keys <= draws.Keys && publications.Keys <= verdicts.Keys
    ensures Hearing(publications, logs, publications, logs, verdicts, failing, draws, now, publications.Keys)
  {
  }

  lemma HearingAt(before: map<nat, Publication>, was: map<nat, seq<Mark>>, after: map<nat, Publication>, logs: map<nat, seq<Mark>>,
                  verdicts: map<nat, Verdict>, failing: set<nat>, draws: map<nat, nat>, now: nat, left: set<nat>, id: nat)
    requires Hearing(before, was, after, logs, verdicts, failing, draws, now, left) && id in left
    ensures id in after && id in draws && id in verdicts && id in logs && id in before && after[id] == before[id]
    ensures Stops(before, failing, id) <==> Listens(after[id].state) && id in failing
  {
    hide Heard, HeardMarks, Listens;
  }

  lemma HearingStep(before: map<nat, Publication>, was: map<nat, seq<Mark>>, after: map<nat, Publication>, logs: map<nat, seq<Mark>>,
                    verdicts: map<nat, Verdict>, failing: set<nat>, draws: map<nat, nat>, now: nat, left: set<nat>, id: nat)
    requires Hearing(before, was, after, logs, verdicts, failing, draws, now, left) && id in left
    requires !Stops(before, failing, id) && forall j :: j in left ==> id <= j
    ensures id in after && id in draws && id in verdicts && id in logs
    ensures var q := Heard(after[id], verdicts[id], now, draws[id]);
            var log := logs[id] + HeardMarks(after[id], verdicts[id], now, true);
            && Hearing(before, was, after[id := q], logs[id := log], verdicts, failing, draws, now, left - {id})
            && (q == after[id] ==> after[id := q] == after) && (q != after[id] ==> after[id := q] != before)
  {
    hide Heard, HeardMarks, Stops;
    assert after[id] == before[id];
    var q := Heard(after[id], verdicts[id], now, draws[id]);
    assert after[id := q][id] == q;
  }

  lemma HearingEnds(before: map<nat, Publication>, was: map<nat, seq<Mark>>, after: map<nat, Publication>, logs: map<nat, seq<Mark>>,
                    verdicts: map<nat, Verdict>, failing: set<nat>, draws: map<nat, nat>, now: nat)
    requires Hearing(before, was, after, logs, verdicts, failing, draws, now, {})
    ensures Walked(before, was, after, logs, verdicts, failing, draws, now) && forall id :: !Stops(before, failing, id)
  {
    hide Heard, HeardMarks, Listens;
  }

  lemma HearingStops(before: map<nat, Publication>, was: map<nat, seq<Mark>>, after: map<nat, Publication>, logs: map<nat, seq<Mark>>,
                     verdicts: map<nat, Verdict>, failing: set<nat>, draws: map<nat, nat>, now: nat, left: set<nat>, id: nat)
    requires Hearing(before, was, after, logs, verdicts, failing, draws, now, left) && id in left
    requires Stops(before, failing, id) && forall j :: j in left ==> id <= j
    ensures Walked(before, was, after, MissedLogs(after, logs, verdicts, now, left), verdicts, failing, draws, now)
  {
    hide Heard, HeardMarks, Stops;
    forall k | k in before
      ensures Reached(before, failing, k) <==> k !in left
    {
      if k in left {
        assert id <= k && Stops(before, failing, id);
      } else {
        forall j: nat | j <= k
          ensures !Stops(before, failing, j)
        {
          ReachedBefore(before, failing, left, j, k);
        }
      }
    }
  }

  lemma StopAt(before: map<nat, Publication>, was: map<nat, seq<Mark>>, after: map<nat, Publication>, logs: map<nat, seq<Mark>>,
               verdicts: map<nat, Verdict>, failing: set<nat>, draws: map<nat, nat>, now: nat, left: set<nat>, id: nat)
    requires AllEarned(after, logs, now) && Hearing(before, was, after, logs, verdicts, failing, draws, now, left) && id in left
    requires Stops(before, failing, id) && forall j :: j in left ==> id <= j
    ensures var missed := MissedLogs(after, logs, verdicts, now, left);
            && AllEarned(after, missed, now) && Walked(before, was, after, missed, verdicts, failing, draws, now)
            && after.Keys == before.Keys == missed.Keys == was.Keys
            && (after == before ==> forall i, probe :: i in before && Current(before[i], TraceOf(was[i]), probe, now) ==>
                                                         Current(after[i], TraceOf(missed[i]), probe, now))
  {
    hide AllEarned, Hearing, Walked, MissedLogs, Current, TraceOf, Stops;
    MissAll(after, logs, verdicts, now, left);
    HearingStops(before, was, after, logs, verdicts, failing, draws, now, left, id);
    OffersStand(before, was, after, MissedLogs(after, logs, verdicts, now, left), verdicts, failing, draws, now);
  }

  lemma ReachedBefore(before: map<nat, Publication>, failing: set<nat>, left: set<nat>, j: nat, k: nat)
    requires j <= k && k in before && k !in left && forall i :: i in before && i !in left ==> !Stops(before, failing, i) && forall l :: l in left ==> i < l
    ensures !Stops(before, failing, j)
  {
    hide Listens;
  }

  /** If a message changes no publication, an offer that stood still stands. */
  lemma OffersStand(before: map<nat, Publication>, was: map<nat, seq<Mark>>, after: map<nat, Publication>, logs: map<nat, seq<Mark>>,
                    verdicts: map<nat, Verdict>, failing: set<nat>, draws: map<nat, nat>, now: nat)
    requires Walked(before, was, after, logs, verdicts, failing, draws, now)
    ensures after.Keys == before.Keys == logs.Keys == was.Keys
    ensures after == before ==> forall id, probe :: id in before && Current(before[id], TraceOf(was[id]), probe, now) ==>
                                                      Current(after[id], TraceOf(logs[id]), probe, now)
  {
    hide Current, TraceOf, Heard, HeardMarks;
    if after == before {
      forall id, probe | id in before && Current(before[id], TraceOf(was[id]), probe, now)
        ensures Current(after[id], TraceOf(logs[id]), probe, now)
      {
        StillCurrent(before[id], was[id], verdicts[id], Reached(before, failing, id), now, draws[id], probe);
      }
    }
  }

  /** A message that leaves a publication alone leaves its offer alone. */
  lemma StillCurrent(p: Publication, log: seq<Mark>, v: Verdict, shown: bool, now: nat, draw: nat, probe: bool)
    requires Met(p, v, shown, now, draw) == p && Current(p, TraceOf(log), probe, now)
    ensures Current(p, TraceOf(log + HeardMarks(p, v, now, shown)), probe, now)
  {
    hide TraceOf;
    var marks := HeardMarks(p, v, now, shown);
    if marks == [] {
      assert log + marks == log;
    } else {
      assert marks == [marks[0]];
      TraceAppend(log, marks[0]);
    }
  }

  // ---------------------------------------------------------------- two runs

  /** The queue holds this publication alone. */
  ghost predicate Alone(q: Queue, p: Publication, t: Trace, now: nat)
    reads q
  {
    && q.Valid() && q.up && q.goodbyes == [] && q.clock == now && q.nextToken < U64_MAX - 10
    && q.publications == map[1 := p] && 1 in q.logs && TraceOf(q.logs[1]) == t
  }

  /** One turn: it is polled and what it offers is sent. */
  method Serve(q: Queue, data: Projection, ghost p: Publication, ghost t: Trace, ghost last: nat, now: nat)
    requires Alone(q, p, t, last) && last <= now <= U64_MAX && q.nextToken < U64_MAX - 20
    requires data.digest == p.digest && data.records > 0 && data.names != {}
    requires Next(p.state).Some? && Next(p.state).value <= now
    modifies q
    ensures q.nextToken == old(q.nextToken) + 1
    ensures Alone(q, p.(state := AfterSent(p.state, Probing(p.state), now)), Noted(t, SentMark(Probing(p.state), now)), now)
  {
    hide TraceOf, AllEarned, AfterSent, Noted;
    assert Waits(q.publications, now, 1);
    TraceAppend(q.logs[1], SentMark(Probing(p.state), now));
    var token := q.Poll(map[1 := data], now);
    q.Sent(token.value.value, true, now);
  }

  /** A message arrives and is looked at. */
  method Hear(q: Queue, v: Verdict, ghost p: Publication, ghost t: Trace, ghost last: nat, now: nat)
    requires Alone(q, p, t, last) && last <= now <= U64_MAX && p.names != {} && !v.Clear?
    modifies q
    ensures q.nextToken == old(q.nextToken)
    ensures Alone(q, Heard(p, v, now, 0), Noted(t, HeardMarks(p, v, now, true)[0]), now)
  {
    hide TraceOf, AllEarned, Heard, Noted, Listens;
    TraceAppend(q.logs[1], HeardMarks(p, v, now, true)[0]);
    var _ := q.Receive(map[1 := v], {}, now, map[1 := 0]);
    assert Reached(map[1 := p], {}, 1);
    assert HeardMarks(p, v, now, true) == [HeardMarks(p, v, now, true)[0]];
  }

  /** A new publication with unique names. */
  method Begin(data: Projection) returns (q: Queue)
    requires data.records > 0 && data.names != {}
    ensures fresh(q) && q.nextToken == 0
    ensures Alone(q, Publication(data.digest, data.names, Probe(0, 0)), Fresh, 0)
  {
    hide TraceOf, AllEarned;
    q := new Queue();
    TraceAppend([], Replaced(None, false, false));
    NoMarks();
    var _ := q.Replace(1, Projection(0, {}, 0), data, 0, 0, true, false);
  }

  /** It is ready after three probes and an announcement. */
  method ClaimOne(data: Projection) returns (q: Queue)
    requires data.records > 0 && data.names != {}
    ensures fresh(q) && q.nextToken == 4
    ensures Alone(q, Publication(data.digest, data.names, Announce(1, 1750)), Trace([0, 250, 500], [750], [0, 250, 500], false, false, false, false), 750)
  {
    hide Alone;
    assert Noted(Fresh, Probed(0)) == Trace([0], [], [0], false, false, false, false);
    assert [0] + [250] == [0, 250] && [0, 250] + [500] == [0, 250, 500] && [] + [750] == [750];
    q := Begin(data);
    var d, n := data.digest, data.names;
    Serve(q, data, Publication(d, n, Probe(0, 0)), Fresh, 0, 0);
    Serve(q, data, Publication(d, n, Probe(1, 250)), Trace([0], [], [0], false, false, false, false), 0, 250);
    Serve(q, data, Publication(d, n, Probe(2, 500)), Trace([0, 250], [], [0, 250], false, false, false, false), 250, 500);
    Serve(q, data, Publication(d, n, Probe(3, 750)), Trace([0, 250, 500], [], [0, 250, 500], false, false, false, false), 500, 750);
  }

  lemma NoMarks()
    ensures TraceOf([]) == Fresh
  {
  }

  /** A conflict at 900 ms is ignored, and then the publication is ready on probes sent by 500 ms. */
  method ConflictIgnoredRun() returns (q: Queue, ready: bool)
    ensures ready && q.Valid() && 1 in q.publications && 1 in q.logs && q.publications[1].names == {5}
    ensures var t := TraceOf(q.logs[1]); t.probes == [0, 250, 500] && t.valid == [] && t.ignored && !Claimed(t)
  {
    hide TraceOf, AllEarned;
    var first, second := Projection(1, {5}, 2), Projection(2, {5}, 2);
    q := ClaimOne(first);
    ghost var log := q.logs[1];
    TraceAppend(log, Replaced(Some(Announce(1, 1750)), true, false));
    var _ := q.Replace(1, first, second, 800, 0, true, false);
    Hear(q, Conflict, Publication(2, {5}, Announce(0, 800)), Trace([0, 250, 500], [], [0, 250, 500], false, false, false, false), 800, 900);
    Serve(q, second, Publication(2, {5}, Announce(0, 800)), Trace([0, 250, 500], [], [], true, false, false, false), 900, 900);
    ready := q.IsReadyNow(1);
  }

  /** A conflict while probing fails the publication. */
  method FailOne(data: Projection) returns (q: Queue)
    requires data.records > 0 && data.names != {}
    ensures fresh(q) && Alone(q, Publication(data.digest, data.names, Failed(5100, true)), Fresh, 100)
  {
    hide Alone;
    assert Noted(Fresh, Probed(0)) == Trace([0], [], [0], false, false, false, false);
    q := Begin(data);
    Serve(q, data, Publication(data.digest, data.names, Probe(0, 0)), Fresh, 0, 0);
    Hear(q, Conflict, Publication(data.digest, data.names, Probe(1, 250)), Trace([0], [], [0], false, false, false, false), 0, 100);
  }

  /** Shared records replace a failed publication, and it is ready though nothing was announced. */
  method SilentlyReadyRun() returns (q: Queue, ready: bool)
    ensures ready && q.Valid() && 1 in q.publications && 1 in q.logs && q.publications[1].names == {}
    ensures TraceOf(q.logs[1]).announcements == []
  {
    hide TraceOf, AllEarned;
    var first, second := Projection(1, {5}, 2), Projection(2, {}, 2);
    q := FailOne(first);
    ghost var log := q.logs[1];
    TraceAppend(log, Replaced(Some(Failed(5100, true)), false, true));
    var _ := q.Replace(1, first, second, 200, 0, true, false);
    log := q.logs[1];
    TraceAppend(log, Emptied);
    assert Waits(q.publications, 5100, 1);
    var _ := q.Poll(map[1 := second], 5100);
    ready := q.IsReadyNow(1);
  }

  // ---------------------------------------------------------------- two publications

  /** Publication 1 has announced shared records once and waits until 1000 ms; 2 is the other one. */
  ghost predicate Pair(q: Queue, p: Publication, t: Trace, now: nat)
    reads q
  {
    && q.Valid() && q.up && q.goodbyes == [] && q.clock == now && q.nextToken < U64_MAX - 20
    && q.publications == map[1 := Publication(1, {}, Announce(1, 1000)), 2 := p] && 2 in q.logs && TraceOf(q.logs[2]) == t
  }

  lemma OnlyOne(publications: map<nat, Publication>, now: nat, id: nat)
    requires Waits(publications, now, id) && forall i :: i in publications && i != id ==> !Waits(publications, now, i)
    ensures First(publications, now, id) && forall i :: First(publications, now, i) ==> i == id
  {
  }

  method ServeSecond(q: Queue, ghost p: Publication, ghost t: Trace, ghost last: nat, now: nat)
    requires Pair(q, p, t, last) && last <= now < 1000 && p.digest == 2 && q.nextToken < 100
    requires Next(p.state).Some? && Next(p.state).value <= now
    modifies q
    ensures q.nextToken == old(q.nextToken) + 1
    ensures Pair(q, p.(state := AfterSent(p.state, Probing(p.state), now)), Noted(t, SentMark(Probing(p.state), now)), now)
  {
    hide TraceOf, AllEarned, AfterSent, Noted;
    OnlyOne(q.publications, now, 2);
    TraceAppend(q.logs[2], SentMark(Probing(p.state), now));
    var token := q.Poll(map[1 := Projection(1, {}, 1), 2 := Projection(2, {5}, 2)], now);
    q.Sent(token.value.value, true, now);
  }

  method BeginPair() returns (q: Queue)
    ensures fresh(q) && q.nextToken == 1 && Pair(q, Publication(2, {5}, Probe(0, 0)), Fresh, 0)
  {
    hide TraceOf, AllEarned;
    q := new Queue();
    NoMarks();
    var shared := Projection(1, {}, 1);
    var _ := q.Replace(1, Projection(0, {}, 0), shared, 0, 0, true, false);
    OnlyOne(q.publications, 0, 1);
    var token := q.Poll(map[1 := shared], 0);
    q.Sent(token.value.value, true, 0);
    TraceAppend([], Replaced(None, false, false));
    var _ := q.Replace(2, Projection(0, {}, 0), Projection(2, {5}, 2), 0, 0, true, false);
  }

  /** The walk fails at publication 1, whose projection is stale, and a conflict never reaches 2. */
  method KeepFromSecond(q: Queue, ghost p: Publication, ghost t: Trace, ghost last: nat, now: nat)
    requires Pair(q, p, t, last) && last <= now <= U64_MAX && p.names != {}
    modifies q
    ensures q.nextToken == old(q.nextToken)
    ensures Pair(q, p, Noted(t, Conflicted(now, p.state, false)), now)
  {
    hide TraceOf, AllEarned, Noted, Heard;
    TraceAppend(q.logs[2], Conflicted(now, p.state, false));
    ghost var before := q.publications;
    assert Stops(before, {1}, 1) && !Reached(before, {1}, 1) && !Reached(before, {1}, 2);
    var _ := q.Receive(map[1 := Clear, 2 := Conflict], {1}, now, map[1 := 0, 2 := 0]);
    assert q.publications == before;
  }

  /** A conflict at 300 ms is kept from publication 2, which is ready at 750 ms with two of its three
      probes older than the conflict. */
  method ConflictKeptRun() returns (q: Queue, ready: bool)
    ensures ready && q.Valid() && 2 in q.publications && 2 in q.logs && q.publications[2].names == {5}
    ensures var t := TraceOf(q.logs[2]); t.probes == [0, 250, 500] && t.valid == [500] && t.ignored && !t.unprobed && !Claimed(t)
  {
    hide TraceOf, AllEarned;
    q := BeginPair();
    assert [0] + [250] == [0, 250] && [0, 250] + [500] == [0, 250, 500] && [] + [500] == [500] && [] + [750] == [750];
    ServeSecond(q, Publication(2, {5}, Probe(0, 0)), Fresh, 0, 0);
    ServeSecond(q, Publication(2, {5}, Probe(1, 250)), Trace([0], [], [0], false, false, false, false), 0, 250);
    KeepFromSecond(q, Publication(2, {5}, Probe(2, 500)), Trace([0, 250], [], [0, 250], false, false, false, false), 250, 300);
    ServeSecond(q, Publication(2, {5}, Probe(2, 500)), Trace([0, 250], [], [], true, false, false, false), 300, 500);
    ServeSecond(q, Publication(2, {5}, Probe(3, 750)), Trace([0, 250, 500], [], [500], true, false, false, false), 500, 750);
    ready := q.IsReadyNow(2);
  }
}
