/**
  Stripping is idempotent (vncdotool/capture.py): feeding a stripped recording to a fresh
  scrubber, in the turns it was recorded in, records the same bytes again.

  The proof runs a second, `shadow` scrubber on what the first one records. The shadow never
  sees an auth exchange, and after every chunk its position is a function of the first one's.
 */
module Idempotence {
  import opened Bytes
  import opened Grammar
  import opened Scrubber
  import opened Segmentation
  import opened Rewrite

  // ----- turn-taking runs -----

  /** A side only speaks when the grammar waits for it, and not past its turn, until the handshake is over. */
  predicate InTurn(t: Tape, e: Event)
    requires t.scrub.Quiet()
  {
    var s := t.scrub.state;
    var r := Drain(false, s, e.dir, t.scrub.Pending(e.dir) + e.data);
    e.data != [] ==>
      && (s.phase == Done || Awaits(s.phase, e.dir))
      && (r.state.phase == Done || Awaits(r.state.phase, e.dir) || r.rest == [])
  }

  predicate TurnTaking(t: Tape, events: seq<Event>)
    requires t.scrub.Quiet()
    decreases |events|
  {
    events != [] ==> InTurn(t, events[0]) && TurnTaking(Hear(t, events[0]), events[1..])
  }

  /** What each event of the capture recorded. */
  function Echo(t: Tape, events: seq<Event>): seq<Event>
    requires t.scrub.Quiet()
    decreases |events|
  {
    if events == [] then []
    else
      var e := events[0];
      [Event(e.dir, Feed(t.scrub, e.dir, e.data).out)] + Echo(Hear(t, e), events[1..])
  }

  // ----- the shadow -----

  /** Where a scrubber reading the recording stands when the recording scrubber stands at `p`. */
  function Shadow(p: Phase): Phase {
    match p
    case TypeList(v, _) => TypeCount(v)
    case SecurityResult(v) => AfterAuth(v, NONE)
    case _ => if InAuth(p) then AfterAuth(p.v, NONE) else p
  }

  /** Geometry is only known once ServerInit has been read. */
  predicate Early(s: State) {
    s.phase.ServerName? || s.phase.Done? || s.facts.geometry.None?
  }

  /** The handshake has not been given up or refused. */
  predicate Alive(s: State) {
    s.phase.Done? ==> s.facts.geometry.Some?
  }

  predicate Mirrors(s: State, sh: State) {
    && Sound(s.phase) && Early(s)
    && sh.phase == Shadow(s.phase)
    && sh.facts.protocolVersion == s.facts.protocolVersion
    && sh.facts.negotiated == s.facts.negotiated
    && sh.facts.geometry == s.facts.geometry
  }

  /** What the shadow does with the recording of one chunk. */
  function ShadowNext(s: State, chunk: Data, sh: State): State
    requires Waiting(s.phase).Some? && |chunk| == Need(s.phase) && Mirrors(s, sh)
  {
    var rec := Recording(false, s.phase, chunk);
    if rec == [] then sh
    else if s.phase.TypeList? then Next(false, Next(false, sh, [1]), [NONE])
    else Next(false, sh, rec)
  }

  lemma {:induction false} ShadowMirrors(s: State, chunk: Data, sh: State)
    requires Waiting(s.phase).Some? && |chunk| == Need(s.phase) && Mirrors(s, sh)
    requires Alive(Next(false, s, chunk))
    ensures Mirrors(Next(false, s, chunk), ShadowNext(s, chunk, sh))
  {
    hide GreetingText, ParseVersion, U16, U32, PutU32;
    if s.phase.TypeChoice? || s.phase.DirectType? {
      ChoiceMirrors(s, chunk, sh);
    } else if InAuth(s.phase) || s.phase.SecurityResult? {
      AuthMirrors(s, chunk, sh);
    }
  }

  /** Nothing of the auth exchange reaches the shadow, save a SecurityResult it can place. */
  lemma {:induction false} AuthMirrors(s: State, chunk: Data, sh: State)
    requires InAuth(s.phase) || s.phase.SecurityResult?
    requires |chunk| == Need(s.phase) && Mirrors(s, sh)
    requires Alive(Next(false, s, chunk))
    ensures Mirrors(Next(false, s, chunk), ShadowNext(s, chunk, sh))
  {
    hide U16;
  }

  /** The client's choice: whatever it was, the shadow sees `none`. */
  lemma {:induction false} ChoiceMirrors(s: State, chunk: Data, sh: State)
    requires s.phase.TypeChoice? || s.phase.DirectType?
    requires |chunk| == Need(s.phase) && Mirrors(s, sh)
    requires Alive(Next(false, s, chunk))
    ensures Mirrors(Next(false, s, chunk), ShadowNext(s, chunk, sh))
  {
  }

  lemma {:induction false} ShadowIdle(s: State, sh: State, d: Direction)
    requires Mirrors(s, sh)
    ensures Sound(sh.phase) && Drain(false, sh, d, []) == Drained(sh, [], [])
  {
    hide Next, Recording, Rank, Drain;
    ShadowNeeds(s, sh);
    DrainNothing(sh, d);
  }

  /** The shadow never waits for zero bytes. */
  lemma {:induction false} ShadowNeeds(s: State, sh: State)
    requires Mirrors(s, sh)
    ensures Settled(sh)
  {
  }

  lemma {:induction false} DrainNothing(s: State, d: Direction)
    requires Settled(s)
    ensures Drain(false, s, d, []) == Drained(s, [], [])
  {
    hide Next, Recording, Rank, Waiting, Sound;
  }

  lemma {:induction false} AliveBefore(s: State, d: Direction, buf: Data)
    requires Sound(s.phase) && Alive(Drain(false, s, d, buf).state)
    ensures Alive(s)
  {
    if s.phase == Done {
      DrainIdle(false, s, d, buf);
    }
  }

  /** What is recorded, other than a rewritten offer, is a chunk the shadow waits for and keeps. */
  lemma {:induction false} ShadowKeeps(s: State, d: Direction, chunk: Data, sh: State)
    requires Awaits(s.phase, d) && |chunk| == Need(s.phase) && Mirrors(s, sh) && !s.phase.TypeList?
    requires Recording(false, s.phase, chunk) != []
    requires Alive(Next(false, s, chunk))
    ensures var rec := Recording(false, s.phase, chunk);
            && Sound(sh.phase) && Awaits(sh.phase, d) && |rec| == Need(sh.phase)
            && Recording(false, sh.phase, rec) == rec
            && ShadowNext(s, chunk, sh) == Next(false, sh, rec)
  {
    hide GreetingText, ParseVersion, U16;
  }

  /** The rewritten offer is two chunks for the shadow: a count and a list of one. */
  lemma {:induction false} ShadowOffer(s: State, chunk: Data, sh: State, more: Data)
    requires s.phase.TypeList? && |chunk| == Need(s.phase) && Mirrors(s, sh)
    ensures var rec, sh' := Recording(false, s.phase, chunk), ShadowNext(s, chunk, sh);
            && Sound(sh.phase) && Sound(sh'.phase) && Awaits(sh.phase, S2C)
            && Drain(false, sh, S2C, rec + more) ==
               var r := Drain(false, sh', S2C, more); r.(out := rec + r.out)
  {
    hide Drain;
    var rec: Data, count: Data, offer: Data := [1, NONE], [1], [NONE];
    Associative(count, offer, more);
    assert count + offer == rec;
    DrainStep(false, sh, S2C, count, offer + more);
    var mid := Next(false, sh, count);
    DrainStep(false, mid, S2C, offer, more);
    var r := Drain(false, Next(false, mid, offer), S2C, more);
    assert [] + (rec + r.out) == rec + r.out;
  }

  /** The recording of a chunk takes the shadow one mirrored step, and the shadow records it unchanged. */
  lemma {:induction false} ShadowStep(s: State, d: Direction, chunk: Data, sh: State, more: Data)
    requires Awaits(s.phase, d) && |chunk| == Need(s.phase) && Mirrors(s, sh)
    requires Alive(Next(false, s, chunk))
    ensures var rec, sh' := Recording(false, s.phase, chunk), ShadowNext(s, chunk, sh);
            && Sound(sh.phase) && Sound(sh'.phase)
            && (rec != [] ==> Awaits(sh.phase, d))
            && Drain(false, sh, d, rec + more) ==
               var r := Drain(false, sh', d, more); r.(out := rec + r.out)
  {
    hide Drain, Next, Recording, Alive, Shadow, Early;
    ShadowIdle(s, sh, d);
    var rec := Recording(false, s.phase, chunk);
    if s.phase.TypeList? {
      ShadowOffer(s, chunk, sh, more);
    } else if rec == [] {
      assert rec + more == more;
      assert [] + Drain(false, sh, d, more).out == Drain(false, sh, d, more).out;
    } else {
      ShadowKeeps(s, d, chunk, sh);
      DrainStep(false, sh, d, rec, more);
    }
  }

  lemma {:induction false} DrainShadow(s: State, d: Direction, buf: Data, sh: State)
    requires Mirrors(s, sh)
    requires Alive(Drain(false, s, d, buf).state)
    ensures var r := Drain(false, s, d, buf);
            && Sound(sh.phase)
            && (r.out != [] ==> Awaits(sh.phase, d))
            && var q := Drain(false, sh, d, r.out);
            && Mirrors(r.state, q.state) && q.rest == [] && q.out == r.out
    decreases Rank(s.phase)
  {
    hide Next, Recording, ShadowNext, Rank, Waiting, Shadow, Alive, Early;
    ShadowIdle(s, sh, d);
    if Awaits(s.phase, d) && |buf| >= Need(s.phase) {
      var n := Need(s.phase);
      var chunk, t := buf[..n], Next(false, s, buf[..n]);
      AliveBefore(t, d, buf[n..]);
      var r := Drain(false, t, d, buf[n..]);
      ShadowMirrors(s, chunk, sh);
      DrainShadow(t, d, buf[n..], ShadowNext(s, chunk, sh));
      ShadowStep(s, d, chunk, sh, r.out);
    }
  }

  /** The recording capture `t` and the capture `u` of its recording. */
  predicate InStep(t: Tape, u: Tape) {
    && t.scrub.Quiet() && u.scrub.Quiet()
    && !t.scrub.preserve && !u.scrub.preserve
    && Mirrors(t.scrub.state, u.scrub.state)
    && u.scrub.s2c == [] && u.scrub.c2s == []
    && u.s2c == t.s2c && u.c2s == t.c2s
  }

  lemma {:induction false} FeedShadow(x: Scrub, y: Scrub, d: Direction, data: Data)
    requires x.Quiet() && y.Quiet() && !x.preserve && !y.preserve
    requires Mirrors(x.state, y.state) && y.s2c == [] && y.c2s == []
    requires InTurn(Tape(x, [], []), Event(d, data)) && Alive(Feed(x, d, data).scrub.state)
    ensures var f := Feed(x, d, data);
            var g := Feed(y, d, f.out);
            g.out == f.out && Mirrors(f.scrub.state, g.scrub.state) && g.scrub.s2c == [] && g.scrub.c2s == []
  {
    hide Drain, Waiting, Shadow, AfterAuth, InAuth, Rank;
    if data == [] {
      EmptyFeed(x, d);
      EmptyFeed(y, d);
    } else {
      var buf := x.Pending(d) + data;
      var r := Drain(false, x.state, d, buf);
      DrainShadow(x.state, d, buf, y.state);
      var q := Drain(false, y.state, d, r.out);
      assert [] + r.out == r.out && r.out + [] == r.out;
      if !Awaits(r.state.phase, d) && r.rest != [] {
        FlushShadow(y.state, d, r, q);
        assert [] + (r.out + r.rest) == r.out + r.rest;
      }
    }
  }

  /** The session's first bytes, arriving behind the end of the handshake, reach the shadow behind it too. */
  lemma {:induction false} FlushShadow(sh: State, d: Direction, r: Drained, q: Drained)
    requires Sound(sh.phase) && q == Drain(false, sh, d, r.out) && q.rest == [] && q.out == r.out
    requires Mirrors(r.state, q.state) && r.state.phase == Done
    ensures Drain(false, sh, d, r.out + r.rest) == Drained(q.state, r.rest, r.out)
    ensures !Awaits(q.state.phase, d)
  {
    hide Drain;
    DrainSplit(false, sh, d, r.out, r.rest);
    assert [] + r.rest == r.rest;
    PastTheEnd(r.state, q.state, d, r.rest);
    assert r.out + [] == r.out;
  }

  lemma {:induction false} PastTheEnd(s: State, sh: State, d: Direction, buf: Data)
    requires Mirrors(s, sh) && s.phase == Done
    ensures !Awaits(sh.phase, d) && Drain(false, sh, d, buf) == Drained(sh, buf, [])
  {
  }

  lemma {:induction false} DeadStaysDead(t: Tape, events: seq<Event>)
    requires t.scrub.Quiet() && !t.scrub.preserve && !Alive(t.scrub.state)
    ensures !Alive(Play(t, events).scrub.state)
    decreases |events|
  {
    if events != [] {
      hide Drain;
      var e := events[0];
      DrainIdle(false, t.scrub.state, e.dir, t.scrub.Pending(e.dir) + e.data);
      DeadStaysDead(Hear(t, e), events[1..]);
    }
  }

  lemma {:induction false} EchoInStep(t: Tape, u: Tape, events: seq<Event>)
    requires InStep(t, u) && TurnTaking(t, events) && Alive(Play(t, events).scrub.state)
    ensures InStep(Play(t, events), Play(u, Echo(t, events)))
    decreases |events|
  {
    hide Feed, Mirrors, InTurn, Drain, Scrub.Quiet;
    if events != [] {
      var e := events[0];
      var t1, echo := Hear(t, e), Event(e.dir, Feed(t.scrub, e.dir, e.data).out);
      if !Alive(t1.scrub.state) {
        DeadStaysDead(t1, events[1..]);
      }
      InTurnAnyTape(t, e);
      FeedShadow(t.scrub, u.scrub, e.dir, e.data);
      var u1 := Hear(u, echo);
      EchoInStep(t1, u1, events[1..]);
      assert Echo(t, events)[1..] == Echo(t1, events[1..]);
    }
  }

  lemma {:induction false} InTurnAnyTape(t: Tape, e: Event)
    requires t.scrub.Quiet() && InTurn(t, e)
    ensures InTurn(Tape(t.scrub, [], []), Event(e.dir, e.data))
  {
  }

  /** For every turn-taking capture that reached a session, however its bytes arrived: a fresh
      scrubber fed the recording in the same turns, in any pieces, records it unchanged and ends with the
      same protocol version, negotiated version and geometry. */
  lemma {:induction false} StrippingIsIdempotent(events: seq<Event>, again: seq<Event>)
    requires TurnTaking(Blank(false), events)
    requires Play(Blank(false), events).scrub.state.facts.geometry.Some?
    requires Turns(again) == Turns(Echo(Blank(false), events))
    ensures var t, u := Play(Blank(false), events), Play(Blank(false), again);
            && u.s2c == t.s2c && u.c2s == t.c2s
            && u.scrub.state.phase == Shadow(t.scrub.state.phase)
            && u.scrub.state.facts.protocolVersion == t.scrub.state.facts.protocolVersion
            && u.scrub.state.facts.negotiated == t.scrub.state.facts.negotiated
            && u.scrub.state.facts.geometry == t.scrub.state.facts.geometry
  {
    hide Play, Echo, Turns, TurnTaking;
    CaptureIgnoresChunking(Blank(false), again, Echo(Blank(false), events));
    EchoInStep(Blank(false), Blank(false), events);
  }

  /** The echo is the two recorded streams: nothing more, nothing less, in each direction. */
  lemma {:induction false} EchoIsTheRecording(t: Tape, events: seq<Event>)
    requires t.scrub.Quiet()
    ensures Play(t, events).s2c == t.s2c + Arrived(Echo(t, events), S2C)
    ensures Play(t, events).c2s == t.c2s + Arrived(Echo(t, events), C2S)
    decreases |events|
  {
    hide Feed;
    if events == [] {
      assert t.s2c + [] == t.s2c && t.c2s + [] == t.c2s;
    } else {
      var e, out := events[0], Feed(t.scrub, events[0].dir, events[0].data).out;
      var rest := Echo(Hear(t, e), events[1..]);
      EchoIsTheRecording(Hear(t, e), events[1..]);
      assert Echo(t, events)[1..] == rest;
      Associative(t.On(e.dir), out, Arrived(rest, e.dir));
      assert [] + Arrived(rest, S2C) == Arrived(rest, S2C) && [] + Arrived(rest, C2S) == Arrived(rest, C2S);
    }
  }
}
