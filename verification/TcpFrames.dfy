/** The bounded DNS-over-TCP deframer of src/dns/wire.rs. */
module TcpFrames {
  import opened Bytes

  const MIN_WIRE := 12
  const READY_CAP := 32

  // ---------------------------------------------------------------- framing

  function Frame(f: seq<byte>): (s: seq<byte>)
    ensures |s| == |f| + 2
  {
    Be16(|f|) + f
  }

  /** The octets of a list of messages. */
  function Framed(frames: seq<seq<byte>>): seq<byte>
  {
    if frames == [] then [] else Frame(frames[0]) + Framed(frames[1..])
  }

  /** The announced length of the first message. */
  function Announced(s: seq<byte>): (n: nat)
    requires |s| >= 2
    ensures n <= MAX_WIRE
  {
    FromBe16(s[0], s[1])
  }

  predicate Complete(s: seq<byte>) { |s| >= 2 && |s| >= Announced(s) + 2 }

  function Body(s: seq<byte>): (f: seq<byte>)
    requires Complete(s)
    ensures |f| == Announced(s)
  {
    s[2..Announced(s) + 2]
  }

  function After(s: seq<byte>): (r: seq<byte>)
    requires Complete(s)
    ensures |r| < |s|
  {
    s[Announced(s) + 2..]
  }

  /** The complete messages of a stream, and what is left. */
  function Messages(s: seq<byte>): seq<seq<byte>>
    decreases |s|
  {
    if Complete(s) then [Body(s)] + Messages(After(s)) else []
  }

  function Tail(s: seq<byte>): seq<byte>
    decreases |s|
  {
    if Complete(s) then Tail(After(s)) else s
  }

  /** Every announced length is allowed. */
  predicate LengthsOk(s: seq<byte>, max: nat)
    decreases |s|
  {
    |s| < 2 || (MIN_WIRE <= Announced(s) <= max && (Complete(s) ==> LengthsOk(After(s), max)))
  }

  /** Octets to reserve for a stream: whole messages as soon as they are announced. */
  function Cost(s: seq<byte>): nat
    decreases |s|
  {
    if |s| == 0 then 0
    else if |s| == 1 then 2
    else Announced(s) + 2 + if Complete(s) then Cost(After(s)) else 0
  }

  lemma FrameReads(f: seq<byte>, t: seq<byte>)
    requires |f| <= MAX_WIRE
    ensures Complete(Frame(f) + t) && Body(Frame(f) + t) == f && After(Frame(f) + t) == t
  {
    Be16RoundTrip(|f|, 0, 0);
    assert (Frame(f) + t)[0] == Be16(|f|)[0] && (Frame(f) + t)[1] == Be16(|f|)[1];
  }

  lemma FrameSplits(s: seq<byte>)
    requires Complete(s)
    ensures s == Frame(Body(s)) + After(s)
  {
    Be16RoundTrip(0, s[0], s[1]);
    assert s[..2] == [s[0], s[1]];
  }

  /** Splitting a stream loses nothing. */
  lemma {:induction false} SplitIsWhole(s: seq<byte>)
    ensures Framed(Messages(s)) + Tail(s) == s && !Complete(Tail(s))
    decreases |s|
  {
    if Complete(s) {
      SplitIsWhole(After(s));
      FrameSplits(s);
      assert Messages(s)[1..] == Messages(After(s));
      Assoc(Frame(Body(s)), Framed(Messages(After(s))), Tail(s));
    }
  }

  predicate AllFit(frames: seq<seq<byte>>) { forall i :: 0 <= i < |frames| ==> |frames[i]| <= MAX_WIRE }

  /** There is one way to frame a stream: what was framed, and the incomplete rest, come back. */
  lemma {:induction false} FramingIsUnique(frames: seq<seq<byte>>, rest: seq<byte>)
    requires AllFit(frames)
    ensures Messages(Framed(frames) + rest) == frames + Messages(rest) && Tail(Framed(frames) + rest) == Tail(rest)
    decreases |frames|
  {
    hide Complete, Frame, Body, After;
    if frames == [] {
      assert Framed(frames) + rest == rest && frames + Messages(rest) == Messages(rest);
    } else {
      var more := frames[1..];
      FramingIsUnique(more, rest);
      Assoc(Frame(frames[0]), Framed(more), rest);
      FrameReads(frames[0], Framed(more) + rest);
      Assoc([frames[0]], more, Messages(rest));
      assert [frames[0]] + more == frames;
    }
  }

  lemma {:induction false} FramedAppend(a: seq<seq<byte>>, b: seq<seq<byte>>)
    ensures Framed(a + b) == Framed(a) + Framed(b)
    decreases |a|
  {
    if a == [] {
      assert a + b == b;
    } else {
      assert (a + b)[1..] == a[1..] + b;
      FramedAppend(a[1..], b);
      Assoc(Frame(a[0]), Framed(a[1..]), Framed(b));
    }
  }

  lemma {:induction false} MessagesFit(s: seq<byte>, max: nat)
    requires LengthsOk(s, max)
    ensures forall i :: 0 <= i < |Messages(s)| ==> MIN_WIRE <= |Messages(s)[i]| <= max
    ensures LengthsOk(Tail(s), max)
    decreases |s|
  {
    if Complete(s) { MessagesFit(After(s), max); }
  }

  function Reserved(frames: seq<seq<byte>>): nat
  {
    if frames == [] then 0 else |frames[0]| + 2 + Reserved(frames[1..])
  }

  class Deframer {
    const max: nat
    var partial: seq<byte>
    var ready: seq<seq<byte>>
    var bytes: nat
    /** Every octet accepted and every message popped so far. */
    ghost var accepted: seq<byte>
    ghost var popped: seq<seq<byte>>

    /** Popped messages, ready messages and the partial buffer are the framing of exactly the
        accepted octets; `bytes` is what is held. */
    ghost predicate Valid()
      reads this
    {
      && MIN_WIRE <= max <= MAX_WIRE
      && popped + ready == Messages(accepted) && partial == Tail(accepted)
      && LengthsOk(accepted, max)
      && |ready| <= READY_CAP
      && bytes == |Framed(ready)| + |partial| <= MAX_WIRE + 2
    }

    constructor (max: nat)
      requires MIN_WIRE <= max <= MAX_WIRE
      ensures Valid() && this.max == max && accepted == [] && popped == []
    {
      this.max := max;
      partial, ready, bytes, accepted, popped := [], [], 0, [], [];
    }

    /** Accepts all of `b` or none of it, and tells exactly when. */
    method InputWithLimit(b: seq<byte>, limit: nat) returns (ok: bool)
      requires Valid()
      modifies this
      ensures Valid() && popped == old(popped)
      ensures ok <==> && |b| + old(bytes) <= MAX_WIRE + 2
                      && LengthsOk(old(accepted) + b, max)
                      && |old(ready)| + |Messages(old(partial) + b)| <= READY_CAP
                      && Reserved(old(ready)) + Cost(old(partial) + b) <= Min(limit, MAX_WIRE + 2)
      ensures ok ==> accepted == old(accepted) + b
      ensures !ok ==> accepted == old(accepted) && ready == old(ready) && partial == old(partial) && bytes == old(bytes)
    {
      hide Messages, Tail, LengthsOk, Framed, Reserved, Cost;
      MoreAccepted(accepted, popped + ready, partial, b, max);
      if |b| > MAX_WIRE + 2 - bytes { return false; }
      ok := Fits(b, if limit < MAX_WIRE + 2 then limit else MAX_WIRE + 2);
      if !ok { return; }
      CommitFacts(popped, ready, Messages(partial + b), partial + b);
      bytes := bytes + |b|;
      Commit(b);
      accepted := accepted + b;
    }

    /** The first pass reads lengths only. */
    method Fits(b: seq<byte>, limit: nat) returns (ok: bool)
      requires Valid()
      ensures ok <==> && LengthsOk(partial + b, max)
                      && |ready| + |Messages(partial + b)| <= READY_CAP
                      && Reserved(ready) + Cost(partial + b) <= limit
    {
      hide Framed, Tail;
      ghost var s := partial + b;
      var total := |partial| + |b|;
      var at, count := 0, |ready|;
      var charged := ReservedFor(ready);
      ghost var start := charged;
      assert s[0..] == s;
      while total - at >= 2
        invariant 0 <= at <= total && count <= READY_CAP
        invariant LengthsOk(s, max) <==> LengthsOk(s[at..], max)
        invariant |ready| + |Messages(s)| == count + |Messages(s[at..])|
        invariant start + Cost(s) == charged + Cost(s[at..])
        decreases total - at
      {
        var n := FromBe16(ByteAt(partial, b, at), ByteAt(partial, b, at + 1));
        Header(s, at);
        if n < MIN_WIRE || n > max { return false; }
        if total - at < n + 2 {
          return charged + (n + 2) <= limit;
        }
        charged := charged + n + 2;
        count := count + 1;
        if count > READY_CAP { return false; }
        at := at + n + 2;
      }
      if at < total { charged := charged + 2; }
      return charged <= limit;
    }

    /** The second pass moves the octets, completing messages on the way. */
    method Commit(b: seq<byte>)
      requires LengthsOk(partial + b, max) && !Complete(partial)
      modifies this`partial, this`ready
      ensures ready == old(ready) + Messages(old(partial) + b) && partial == Tail(old(partial) + b)
    {
      hide Framed, Cost, Complete, Body, After, Announced, Messages, Tail, LengthsOk;
      var rest := b;
      NothingComplete();
      while rest != []
        invariant LengthsOk(partial + rest, max) && !Complete(partial)
        invariant ready + Messages(partial + rest) == old(ready) + Messages(old(partial) + b)
        invariant Tail(partial + rest) == Tail(old(partial) + b)
        decreases |rest|
      {
        ghost var stream, before := partial + rest, ready;
        if |partial| < 2 {
          var n := Min(2 - |partial|, |rest|);
          assert partial + rest[..n] + rest[n..] == stream;
          partial, rest := partial + rest[..n], rest[n..];
          if |partial| < 2 { break; }
        }
        Unfinished(stream, partial, rest, max);
        var size := Announced(partial) + 2;
        var n := Min(size - |partial|, |rest|);
        assert partial + rest[..n] + rest[n..] == stream;
        partial, rest := partial + rest[..n], rest[n..];
        Filled(stream, partial, rest, size, max);
        if |partial| == size {
          ready := ready + [partial[2..]];
          partial := [];
          Assoc(before, [Body(stream)], Messages(rest));
        }
      }
      EndOfInput(partial, rest);
    }

    method Pop() returns (r: seq<seq<byte>>)
      requires Valid()
      modifies this`ready, this`bytes, this`popped
      ensures Valid() && accepted == old(accepted)
      ensures old(ready) == [] ==> r == [] && ready == [] && popped == old(popped)
      ensures old(ready) != [] ==> r == [old(ready)[0]] && ready == old(ready)[1..] && popped == old(popped) + r
    {
      if ready == [] { return []; }
      r := [ready[0]];
      popped, bytes, ready := popped + r, bytes - (|ready[0]| + 2), ready[1..];
    }
  }

  function ByteAt(partial: seq<byte>, b: seq<byte>, n: nat): (r: byte)
    requires n < |partial| + |b|
    ensures r == (partial + b)[n]
  {
    if n < |partial| then partial[n] else b[n - |partial|]
  }

  method ReservedFor(frames: seq<seq<byte>>) returns (n: nat)
    ensures n == Reserved(frames)
  {
    n := 0;
    var i := 0;
    assert frames[0..] == frames;
    while i < |frames|
      invariant 0 <= i <= |frames| && n + Reserved(frames[i..]) == Reserved(frames)
    {
      assert frames[i..][0] == frames[i] && frames[i..][1..] == frames[i + 1..];
      n := n + |frames[i]| + 2;
      i := i + 1;
    }
  }

  lemma Header(s: seq<byte>, at: nat)
    requires at + 2 <= |s|
    ensures Announced(s[at..]) == FromBe16(s[at], s[at + 1])
    ensures Complete(s[at..]) ==> After(s[at..]) == s[at + FromBe16(s[at], s[at + 1]) + 2..]
  {
  }

  lemma NothingComplete()
    ensures !Complete([]) && forall s :: |s| < 2 ==> !Complete(s)
  {
  }

  lemma Unfinished(stream: seq<byte>, partial: seq<byte>, rest: seq<byte>, max: nat)
    requires partial + rest == stream && |partial| >= 2 && LengthsOk(stream, max) && (|partial| == 2 || !Complete(partial))
    ensures |partial| < Announced(partial) + 2 && Announced(partial) == Announced(stream)
  {
  }

  /** The buffer after it took as much of its message as there was. */
  lemma Filled(stream: seq<byte>, partial: seq<byte>, rest: seq<byte>, size: nat, max: nat)
    requires partial + rest == stream && LengthsOk(stream, max) && 2 <= |partial| <= size == Announced(stream) + 2
    requires |partial| < size ==> rest == []
    ensures |partial| == size ==> && Complete(stream) && Body(stream) == partial[2..] && After(stream) == rest == [] + rest
                                  && Messages(stream) == [Body(stream)] + Messages(rest) && Tail(stream) == Tail(rest)
                                  && LengthsOk(rest, max)
    ensures |partial| < size ==> partial == stream == partial + rest && !Complete(partial)
  {
  }

  lemma EndOfInput(partial: seq<byte>, rest: seq<byte>)
    requires rest == [] && !Complete(partial)
    ensures Messages(partial + rest) == [] && Tail(partial + rest) == partial
  {
    assert partial + rest == partial;
  }

  lemma {:induction false} LengthsSplit(frames: seq<seq<byte>>, rest: seq<byte>, max: nat)
    requires AllFit(frames) && forall i :: 0 <= i < |frames| ==> MIN_WIRE <= |frames[i]| <= max
    ensures LengthsOk(Framed(frames) + rest, max) <==> LengthsOk(rest, max)
    decreases |frames|
  {
    hide Complete, Frame, Body, After;
    if frames == [] {
      assert Framed(frames) + rest == rest;
    } else {
      LengthsSplit(frames[1..], rest, max);
      Assoc(Frame(frames[0]), Framed(frames[1..]), rest);
      FrameReads(frames[0], Framed(frames[1..]) + rest);
      HeadLength(Framed(frames) + rest);
    }
  }

  lemma HeadLength(s: seq<byte>)
    requires Complete(s)
    ensures |s| >= 2 && Announced(s) == |Body(s)|
  {
  }

  /** What more input does to the whole stream is what it does to the partial buffer. */
  lemma MoreAccepted(accepted: seq<byte>, frames: seq<seq<byte>>, partial: seq<byte>, b: seq<byte>, max: nat)
    requires frames == Messages(accepted) && partial == Tail(accepted) && LengthsOk(accepted, max) && max <= MAX_WIRE
    ensures Messages(accepted + b) == frames + Messages(partial + b) && Tail(accepted + b) == Tail(partial + b)
    ensures LengthsOk(accepted + b, max) <==> LengthsOk(partial + b, max)
    ensures !Complete(partial)
  {
    hide Messages, Tail, LengthsOk, Framed, Complete;
    SplitIsWhole(accepted);
    MessagesFit(accepted, max);
    Assoc(Framed(frames), partial, b);
    FramingIsUnique(frames, partial + b);
    LengthsSplit(frames, partial + b, max);
  }

  /** The octets held after the second pass. */
  lemma CommitFacts(popped: seq<seq<byte>>, ready: seq<seq<byte>>, more: seq<seq<byte>>, s: seq<byte>)
    requires more == Messages(s)
    ensures popped + ready + more == popped + (ready + more)
    ensures |Framed(ready + more)| + |Tail(s)| == |Framed(ready)| + |s|
  {
    hide Messages, Tail, Framed;
    SplitIsWhole(s);
    FramedAppend(ready, more);
  }
}
