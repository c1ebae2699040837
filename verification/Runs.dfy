/**
  Which runs the rewrite speaks of (vncdotool/capture.py): every turn-taking capture that follows
  its handshake to the end is, up to how its bytes were cut, some `Script` and a session.
 */
module Runs {
  import opened Bytes
  import opened Grammar
  import opened Scrubber
  import opened Segmentation
  import opened Rewrite
  import opened Idempotence

  // ----- turns, and what comes after them -----

  function JoinAll(es: seq<Event>, after: seq<Event>): seq<Event> {
    if es == [] then after else Join(es[0], JoinAll(es[1..], after))
  }

  lemma {:induction false} TurnsConcat(a: seq<Event>, b: seq<Event>)
    ensures Turns(a + b) == JoinAll(a, Turns(b))
    decreases |a|
  {
    hide Join;
    if a == [] {
      assert a + b == b;
    } else {
      assert (a + b)[1..] == a[1..] + b;
      TurnsConcat(a[1..], b);
    }
  }

  lemma {:induction false} JoinAllConcat(a: seq<Event>, b: seq<Event>, after: seq<Event>)
    ensures JoinAll(a + b, after) == JoinAll(a, JoinAll(b, after))
    decreases |a|
  {
    hide Join;
    if a == [] {
      assert a + b == b;
    } else {
      assert (a + b)[1..] == a[1..] + b;
      JoinAllConcat(a[1..], b, after);
    }
  }

  lemma {:induction false} JoinAllTwo(e: Event, f: Event, after: seq<Event>)
    ensures JoinAll([e], after) == Join(e, after)
    ensures JoinAll([e, f], after) == Join(e, Join(f, after))
  {
    hide Join;
    assert [e][1..] == [] && [f][1..] == [] && [e, f][1..] == [f];
  }

  /** One read, or the same bytes in two. */
  lemma {:induction false} JoinSplit(d: Direction, a: Data, b: Data, es: seq<Event>)
    ensures Join(Event(d, a + b), es) == Join(Event(d, a), Join(Event(d, b), es))
  {
    var inner := Join(Event(d, b), es);
    if a == [] {
      assert a + b == b;
    } else if b == [] {
      assert a + b == a;
    } else if es != [] && es[0].dir == d {
      Associative(a, b, es[0].data);
      assert inner == [Event(d, b + es[0].data)] + es[1..] && inner[1..] == es[1..];
    } else {
      assert inner == [Event(d, b)] + es && inner[1..] == es;
    }
  }

  // ----- one event per chunk -----

  /** Events that are, one by one, exactly the chunks the grammar waits for. */
  predicate Exact(s: State, trail: seq<Event>)
    decreases |trail|
  {
    && Sound(s.phase)
    && (trail != [] ==>
          && Awaits(s.phase, trail[0].dir) && |trail[0].data| == Need(s.phase)
          && Exact(Next(false, s, trail[0].data), trail[1..]))
  }

  function Follow(s: State, trail: seq<Event>): State
    requires Exact(s, trail)
    decreases |trail|
  {
    if trail == [] then s else Follow(Next(false, s, trail[0].data), trail[1..])
  }

  lemma {:induction false} ExactConcat(s: State, a: seq<Event>, b: seq<Event>)
    requires Exact(s, a) && Exact(Follow(s, a), b)
    ensures Exact(s, a + b) && Follow(s, a + b) == Follow(Follow(s, a), b)
    decreases |a|
  {
    hide Next;
    if a == [] {
      assert a + b == b;
    } else {
      assert (a + b)[0] == a[0] && (a + b)[1..] == a[1..] + b;
      ExactConcat(Next(false, s, a[0].data), a[1..], b);
    }
  }

  /** The chunks one tap's bytes are taken in. */
  function Chunks(s: State, d: Direction, buf: Data): seq<Event>
    requires Sound(s.phase)
    decreases Rank(s.phase)
  {
    if Awaits(s.phase, d) && Need(s.phase) <= |buf| then
      var n := Need(s.phase);
      [Event(d, buf[..n])] + Chunks(Next(false, s, buf[..n]), d, buf[n..])
    else []
  }

  lemma {:induction false} ChunksFollow(s: State, d: Direction, buf: Data, after: seq<Event>)
    requires Sound(s.phase)
    ensures var c, r := Chunks(s, d, buf), Drain(false, s, d, buf);
            && Exact(s, c) && Follow(s, c) == r.state
            && Join(Event(d, buf), after) == JoinAll(c, Join(Event(d, r.rest), after))
    decreases Rank(s.phase)
  {
    hide Next, Rank, Recording, Join, Waiting, Sound;
    if Awaits(s.phase, d) && Need(s.phase) <= |buf| {
      var n := Need(s.phase);
      var t, rest := Next(false, s, buf[..n]), buf[n..];
      ChunksFollow(t, d, rest, after);
      SplitAt(buf, n);
      JoinSplit(d, buf[..n], rest, after);
      assert Chunks(s, d, buf)[1..] == Chunks(t, d, rest);
    }
  }

  // ----- from a run to its chunks -----

  /** The bytes a scrubber is holding, as an event still to come. */
  function Held(x: Scrub): Event {
    if Awaits(x.state.phase, S2C) then Event(S2C, x.s2c) else Event(C2S, x.c2s)
  }

  lemma {:induction false} HeldJoins(x: Scrub, e: Event, after: seq<Event>)
    requires x.Quiet() && Awaits(x.state.phase, e.dir)
    ensures Join(Held(x), Join(e, after)) == Join(Event(e.dir, x.Pending(e.dir) + e.data), after)
    ensures e.dir == S2C ==> x.c2s == []
    ensures e.dir == C2S ==> x.s2c == []
  {
    hide Join;
    JoinSplit(e.dir, x.Pending(e.dir), e.data, after);
  }

  /** A stripping run that ends with its handshake followed took it in exact chunks, in turns; the
      rest of its events are the session. */
  lemma {:induction false} RunIsExact(t: Tape, events: seq<Event>) returns (trail: seq<Event>, tail: seq<Event>)
    requires t.scrub.Quiet() && !t.scrub.preserve && TurnTaking(t, events)
    requires Play(t, events).scrub.state.phase == Done
    ensures Exact(t.scrub.state, trail) && Follow(t.scrub.state, trail) == Play(t, events).scrub.state
    ensures Join(Held(t.scrub), Turns(events)) == JoinAll(trail, Turns(tail))
    decreases |events|
  {
    hide Feed, InTurn, Drain, Join, Scrub.Quiet, Follow, Exact;
    var x := t.scrub;
    if x.state.phase == Done {
      trail, tail := [], events;
      DoneRun(t, events);
    } else if events == [] {
      assert false;
    } else if events[0].data == [] {
      EmptyFeed(x, events[0].dir);
      trail, tail := RunIsExact(Hear(t, events[0]), events[1..]);
      EmptyJoins(events[0], Turns(events[1..]));
    } else {
      trail, tail := ReadIsExact(t, events);
    }
  }

  lemma {:induction false} EmptyJoins(e: Event, es: seq<Event>)
    requires e.data == []
    ensures Join(e, es) == es
  {
  }

  lemma {:induction false} DoneRun(t: Tape, events: seq<Event>)
    requires t.scrub.Quiet() && !t.scrub.preserve && t.scrub.state.phase == Done
    ensures Play(t, events).scrub.state == t.scrub.state
    ensures Exact(t.scrub.state, []) && Follow(t.scrub.state, []) == t.scrub.state
    ensures Join(Held(t.scrub), Turns(events)) == Turns(events)
    decreases |events|
  {
    if events != [] {
      hide Drain, Turns, Join;
      var e := events[0];
      DrainIdle(false, t.scrub.state, e.dir, t.scrub.Pending(e.dir) + e.data);
      DoneRun(Hear(t, e), events[1..]);
    }
    EmptyJoins(Held(t.scrub), Turns(events));
  }

  /** One read of the awaited direction, and the run after it. */
  lemma {:induction false} ReadIsExact(t: Tape, events: seq<Event>) returns (trail: seq<Event>, tail: seq<Event>)
    requires t.scrub.Quiet() && !t.scrub.preserve && TurnTaking(t, events)
    requires Play(t, events).scrub.state.phase == Done
    requires t.scrub.state.phase != Done && events != [] && events[0].data != []
    ensures Exact(t.scrub.state, trail) && Follow(t.scrub.state, trail) == Play(t, events).scrub.state
    ensures Join(Held(t.scrub), Turns(events)) == JoinAll(trail, Turns(tail))
    decreases |events|, 0
  {
    hide Drain, Join, Follow, Exact, Scrub.Quiet, Feed, Chunks, TurnTaking;
    var x, e, after := t.scrub, events[0], Turns(events[1..]);
    ReadInTurn(t, events);
    var t1, r := Hear(t, e), Drain(false, x.state, e.dir, x.Pending(e.dir) + e.data);
    HeldJoins(x, e, after);
    ChunksFollow(x.state, e.dir, x.Pending(e.dir) + e.data, after);
    var chunks := Chunks(x.state, e.dir, x.Pending(e.dir) + e.data);
    if r.state.phase == Done {
      trail, tail := chunks, [Event(e.dir, r.rest)] + events[1..];
      DoneRun(t1, events[1..]);
      assert tail[1..] == events[1..];
    } else {
      var more;
      more, tail := RunIsExact(t1, events[1..]);
      trail := chunks + more;
      ExactConcat(x.state, chunks, more);
      JoinAllConcat(chunks, more, Turns(tail));
      LeftIsHeld(t, e, after);
    }
  }

  lemma {:induction false} ReadInTurn(t: Tape, events: seq<Event>)
    requires t.scrub.Quiet() && !t.scrub.preserve && TurnTaking(t, events)
    requires t.scrub.state.phase != Done && events != [] && events[0].data != []
    ensures var x, e, t1 := t.scrub, events[0], Hear(t, events[0]);
            && Awaits(x.state.phase, e.dir) && Sound(x.state.phase) && InTurn(t, e)
            && TurnTaking(t1, events[1..]) && Play(t, events) == Play(t1, events[1..])
            && t1.scrub.state == Drain(false, x.state, e.dir, x.Pending(e.dir) + e.data).state
            && !t1.scrub.preserve
  {
    hide Drain;
  }

  /** What a read leaves over is what the scrubber holds next. */
  lemma {:induction false} LeftIsHeld(t: Tape, e: Event, after: seq<Event>)
    requires t.scrub.Quiet() && !t.scrub.preserve && e.data != [] && InTurn(t, e) && Awaits(t.scrub.state.phase, e.dir)
    requires Hear(t, e).scrub.state.phase != Done
    ensures var r := Drain(false, t.scrub.state, e.dir, t.scrub.Pending(e.dir) + e.data);
            Join(Event(e.dir, r.rest), after) == Join(Held(Hear(t, e).scrub), after)
  {
    hide Drain, Join;
    var x, t1 := t.scrub, Hear(t, e);
    var r := Drain(false, x.state, e.dir, x.Pending(e.dir) + e.data);
    assert t1.scrub.Quiet();
    if !Awaits(r.state.phase, e.dir) {
      EmptyJoins(Event(e.dir, r.rest), after);
      EmptyJoins(Held(t1.scrub), after);
    }
  }

  // ----- from chunks to a script -----

  /** The chunks take the grammar to its end, and to what it then knows. */
  predicate Completes(s: State, trail: seq<Event>, end: State) {
    Exact(s, trail) && Follow(s, trail) == end && end.phase == Done
  }

  /** The next chunk, and the rest of the way. */
  lemma {:induction false} OnTheWay(s: State, trail: seq<Event>, end: State)
    requires Completes(s, trail, end) && (s.phase != Done || s.facts.geometry != end.facts.geometry)
    ensures Waiting(s.phase).Some? && Sound(s.phase) && trail != []
    ensures trail[0] == Event(Waiting(s.phase).value.direction, trail[0].data) && |trail[0].data| == Need(s.phase)
    ensures Completes(Next(false, s, trail[0].data), trail[1..], end)
    ensures forall after :: JoinAll(trail, after) == Join(trail[0], JoinAll(trail[1..], after))
  {
    hide Next, Join;
  }

  lemma {:induction false} U16Unique(s: Data)
    requires |s| == 2
    ensures s == PutU16(U16(s))
  {
    assert U16(s) / 256 == s[0] && U16(s) % 256 == s[1];
  }

  lemma {:induction false} U32Unique(s: Data)
    requires |s| == 4
    ensures s == PutU32(U32(s))
  {
    U16Unique(s[..2]);
    U16Unique(s[2..]);
    hide U16, PutU16;
    assert U32(s) / 0x1_0000 == U16(s[..2]) && U32(s) % 0x1_0000 == U16(s[2..]);
    SplitAt(s, 2);
  }

  lemma {:induction false} ParseInit(end: State, s: State, trail: seq<Event>, after: seq<Event>)
    returns (shared: Byte, init: Data, name: Data)
    requires Completes(s, trail, end) && s.phase == ClientInit
    ensures |init| == 24 && |name| == U32(init[20..24]) && end.facts.geometry.Some?
    ensures JoinAll(trail, after) == JoinAll([Event(C2S, [shared]), Event(S2C, init + name)], after)
  {
    hide Join, U32, U16, Follow, Exact;
    OnTheWay(s, trail, end);
    var flag, rest := trail[0].data, trail[1..];
    shared := flag[0];
    assert flag == [shared];
    var s1 := Next(false, s, flag);
    OnTheWay(s1, rest, end);
    init := rest[0].data;
    var s2 := Next(false, s1, init);
    name := LastChunk(end, s2, U32(init[20..24]), rest[1..], after);
    JoinSplit(S2C, init, name, after);
    JoinAllTwo(Event(C2S, [shared]), Event(S2C, init + name), after);
  }

  lemma {:induction false} LastChunk(end: State, s: State, length: nat, trail: seq<Event>, after: seq<Event>)
    returns (name: Data)
    requires Completes(s, trail, end) && s.phase == if length == 0 then Done else ServerName(length)
    ensures |name| == length && end.facts == s.facts && JoinAll(trail, after) == Join(Event(S2C, name), after)
  {
    if length == 0 {
      name := [];
      Ended(end, s, trail);
    } else {
      OnTheWay(s, trail, end);
      name := trail[0].data;
      Ended(end, Next(false, s, name), trail[1..]);
    }
  }

  /** The result of a login; one that is not 0 ends the handshake. */
  lemma {:induction false} ParseResult(end: State, s: State, v: Version, sectype: nat, trail: seq<Event>,
                                       after: seq<Event>)
    returns (result: Option<Data>, t: State, rest: seq<Event>)
    requires Completes(s, trail, end) && s.phase == AfterAuth(v, sectype)
    ensures Completes(t, rest, end) && t.facts == s.facts
    ensures result.None? ==> t.phase == ClientInit
    ensures result.None? ==> JoinAll(trail, after) == JoinAll(ResultTurns(v, sectype), JoinAll(rest, after))
    ensures result.Some? ==> t == end && s.phase == SecurityResult(v)
    ensures result.Some? ==> |result.value| == 4 && U32(result.value) != 0
    ensures result.Some? ==> JoinAll(trail, after) == Join(Event(S2C, result.value), after)
  {
    hide Join, U32, PutU32;
    if s.phase == ClientInit {
      result, t, rest := None, s, trail;
    } else {
      OnTheWay(s, trail, end);
      rest := trail[1..];
      t := Next(false, s, trail[0].data);
      U32Unique(trail[0].data);
      JoinAllTwo(Event(S2C, PutU32(0)), Event(S2C, PutU32(0)), JoinAll(rest, after));
      if U32(trail[0].data) == 0 {
        result := None;
      } else {
        result := Some(trail[0].data);
        Ended(end, t, rest);
      }
    }
  }

  lemma {:induction false} Ended(end: State, s: State, trail: seq<Event>)
    requires Completes(s, trail, end) && s.phase == Done
    ensures trail == [] && s == end
  {
  }

  lemma {:induction false} ParseVnc(end: State, s: State, v: Version, trail: seq<Event>, after: seq<Event>)
    returns (a: Auth, t: State, rest: seq<Event>)
    requires Completes(s, trail, end) && s.phase == Challenge(v)
    ensures a.VncAuth? && a.Valid() && t == State(SecurityResult(v), s.facts) && Completes(t, rest, end)
    ensures JoinAll(trail, after) == JoinAll(AuthTurns(a), JoinAll(rest, after))
  {
    hide Join, Follow, Exact;
    OnTheWay(s, trail, end);
    var s1 := Next(false, s, trail[0].data);
    OnTheWay(s1, trail[1..], end);
    a := VncAuth(trail[0].data, trail[1..][0].data);
    t, rest := Next(false, s1, trail[1..][0].data), trail[1..][1..];
    JoinAllTwo(Event(S2C, a.challenge), Event(C2S, a.response), JoinAll(rest, after));
  }

  lemma {:induction false} ParseArdKeys(end: State, s: State, v: Version, trail: seq<Event>, after: seq<Event>)
    returns (generator: Data, modulus: Data, serverKey: Data, t: State, rest: seq<Event>)
    requires Completes(s, trail, end) && s.phase == ArdHead(v)
    ensures |generator| == 2 && |modulus| == |serverKey| < 0x1_0000
    ensures t == State(ArdCredentials(v, |modulus|), s.facts) && Completes(t, rest, end)
    ensures JoinAll(trail, after) ==
            Join(Event(S2C, (generator + PutU16(|modulus|)) + (modulus + serverKey)), JoinAll(rest, after))
  {
    hide Join, Follow, Exact, U16, PutU16;
    OnTheWay(s, trail, end);
    var head, trail1 := trail[0].data, trail[1..];
    var s1 := Next(false, s, head);
    OnTheWay(s1, trail1, end);
    var trail2 := trail1[1..];
    modulus := trail1[0].data;
    var s2 := Next(false, s1, modulus);
    OnTheWay(s2, trail2, end);
    generator, serverKey, rest := head[..2], trail2[0].data, trail2[1..];
    t := Next(false, s2, serverKey);
    U16Unique(head[2..4]);
    assert head == generator + PutU16(|modulus|) by {
      SplitAt(head, 2);
      assert head[2..] == head[2..4];
    }
    JoinSplit(S2C, modulus, serverKey, JoinAll(rest, after));
    JoinSplit(S2C, head, modulus + serverKey, JoinAll(rest, after));
  }

  lemma {:induction false} ParseArd(end: State, s: State, v: Version, trail: seq<Event>, after: seq<Event>)
    returns (a: Auth, t: State, rest: seq<Event>)
    requires Completes(s, trail, end) && s.phase == ArdHead(v)
    ensures a.ArdAuth? && a.Valid() && t == State(SecurityResult(v), s.facts) && Completes(t, rest, end)
    ensures JoinAll(trail, after) == JoinAll(AuthTurns(a), JoinAll(rest, after))
  {
    hide Join, Follow, Exact, PutU16, JoinAll;
    var generator, modulus, serverKey, s1, trail1 := ParseArdKeys(end, s, v, trail, after);
    OnTheWay(s1, trail1, end);
    var credentials, trail2 := trail1[0].data, trail1[1..];
    var s2 := Next(false, s1, credentials);
    OnTheWay(s2, trail2, end);
    var clientKey := trail2[0].data;
    t, rest := Next(false, s2, clientKey), trail2[1..];
    a := ArdAuth(generator, modulus, serverKey, credentials, clientKey);
    JoinSplit(C2S, credentials, clientKey, JoinAll(rest, after));
    JoinAllTwo(Event(S2C, (generator + PutU16(|modulus|)) + (modulus + serverKey)),
               Event(C2S, credentials + clientKey), JoinAll(rest, after));
  }

  /** The types whose exchange the grammar knows. */
  predicate Followable(sectype: nat) {
    sectype in {0, NONE, VNC_AUTHENTICATION, DIFFIE_HELLMAN}
  }

  /** From where a security type leads: the exchange it stands for. */
  lemma {:induction false} ParseAuth(end: State, f: Facts, v: Version, sectype: nat, trail: seq<Event>,
                                     after: seq<Event>)
    returns (a: Auth, t: State, rest: seq<Event>)
    requires Completes(EnterAuth(false, v, sectype, f), trail, end) && Followable(sectype)
    ensures a.Valid() && a.Sectype() == sectype
    ensures t == State(AfterAuth(v, sectype), f.(securityType := Some(sectype))) && Completes(t, rest, end)
    ensures JoinAll(trail, after) == JoinAll(AuthTurns(a), JoinAll(rest, after))
  {
    hide Join, Follow, Exact;
    var s := EnterAuth(false, v, sectype, f);
    if sectype == VNC_AUTHENTICATION {
      a, t, rest := ParseVnc(end, s, v, trail, after);
    } else if sectype == DIFFIE_HELLMAN {
      a, t, rest := ParseArd(end, s, v, trail, after);
    } else {
      a := if sectype == NONE then NoAuth else ZeroAuth;
      t, rest := s, trail;
    }
  }

  /** What a server that refuses sends instead of an offer. */
  function RefusalBytes(v: Version): Data {
    if v.AtLeast(3, 7) then [0] else PutU32(0)
  }

  lemma {:induction false} ParseOffer(end: State, s: State, v: Version, trail: seq<Event>, after: seq<Event>)
    returns (refused: bool, types: Data, sectype: nat, f: Facts, rest: seq<Event>)
    requires Completes(s, trail, end) && s.phase == Opening(v)
    ensures refused ==> end == State(Done, s.facts)
    ensures refused ==> JoinAll(trail, after) == Join(Event(S2C, RefusalBytes(v)), after)
    ensures !refused ==> 0 < |types| < 256 && (if v.AtLeast(3, 7) then sectype < 256 else 0 < sectype < 0x1_0000_0000)
    ensures !refused ==> f == s.facts.(securityTypes := if v.AtLeast(3, 7) then types else [sectype])
    ensures !refused ==> Completes(EnterAuth(false, v, sectype, f), rest, end)
    ensures !refused ==> JoinAll(trail, after) == JoinAll(OfferTurns(v, types, sectype), JoinAll(rest, after))
  {
    hide Join, U32, PutU32;
    OnTheWay(s, trail, end);
    var chunk := trail[0].data;
    types, sectype, f, rest := [NONE], 0, s.facts, trail[1..];
    if v.AtLeast(3, 7) {
      refused := chunk[0] == 0;
      if refused {
        Ended(end, Next(false, s, chunk), rest);
        assert chunk == [0];
      } else {
        types, sectype, f, rest := ParseTypes(end, s, v, trail, after);
      }
    } else {
      refused := U32(chunk) == 0;
      U32Unique(chunk);
      if refused {
        Ended(end, Next(false, s, chunk), rest);
      } else {
        types, sectype := [NONE], U32(chunk);
        f := s.facts.(securityTypes := [sectype]);
        JoinAllTwo(Event(S2C, chunk), Event(S2C, chunk), JoinAll(rest, after));
      }
    }
  }

  lemma {:induction false} ParseTypes(end: State, s: State, v: Version, trail: seq<Event>, after: seq<Event>)
    returns (types: Data, sectype: nat, f: Facts, rest: seq<Event>)
    requires Completes(s, trail, end) && s.phase == TypeCount(v) && v.AtLeast(3, 7)
    requires trail != [] && trail[0].data != [] && trail[0].data[0] != 0
    ensures 0 < |types| < 256 && sectype < 256 && f == s.facts.(securityTypes := types)
    ensures Completes(EnterAuth(false, v, sectype, f), rest, end)
    ensures JoinAll(trail, after) == JoinAll(OfferTurns(v, types, sectype), JoinAll(rest, after))
  {
    hide Join, Follow, Exact;
    OnTheWay(s, trail, end);
    var count, trail1 := trail[0].data, trail[1..];
    var s1 := Next(false, s, count);
    OnTheWay(s1, trail1, end);
    var trail2 := trail1[1..];
    types := trail1[0].data;
    assert count == [|types|];
    var s2 := Next(false, s1, types);
    OnTheWay(s2, trail2, end);
    var choice := trail2[0].data;
    sectype, f, rest := choice[0], s2.facts, trail2[1..];
    assert choice == [sectype];
    JoinSplit(S2C, count, types, Join(trail2[0], JoinAll(rest, after)));
    JoinAllTwo(Event(S2C, count + types), Event(C2S, choice), JoinAll(rest, after));
  }

  /** Any chunks that complete the handshake are the turns of a script. */
  lemma {:induction false} TrailIsScript(end: State, trail: seq<Event>, after: seq<Event>) returns (h: Handshake)
    requires Completes(Start, trail, end) && end.facts.geometry.Some?
    ensures h.Valid() && JoinAll(trail, after) == JoinAll(Script(h), after)
  {
    hide Join, Follow, Exact, JoinAll, ParseVersion, GreetingText, OfferTurns, AuthTurns, ResultTurns, RefusalBytes;
    OnTheWay(Start, trail, end);
    var greeting, trail1 := trail[0].data, trail[1..];
    var s1 := Next(false, Start, greeting);
    OnTheWay(s1, trail1, end);
    var reply, trail2 := trail1[0].data, trail1[1..];
    var s2 := Next(false, s1, reply);
    OnTheWay(s2, trail2, end);
    var v := ParseVersion(reply).value;
    var refused, types, sectype, f, trail3 := ParseOffer(end, s2, v, trail2, after);
    if !Followable(sectype) {
      Ended(end, EnterAuth(false, v, sectype, f), trail3);
    }
    var auth, s4, trail4 := ParseAuth(end, f, v, sectype, trail3, after);
    var result, s5, trail5 := ParseResult(end, s4, v, sectype, trail4, after);
    var shared, init, name := ParseInit(end, s5, trail5, after);
    h := Handshake(greeting, reply, types, auth, shared, init, name);
    ScriptJoins(h, after);
  }

  lemma {:induction false} ScriptJoins(h: Handshake, after: seq<Event>)
    requires h.Valid()
    ensures var sectype := h.auth.Sectype();
            var last := [Event(C2S, [h.shared]), Event(S2C, h.init + h.name)];
            JoinAll(Script(h), after) ==
            Join(Event(S2C, h.greeting), Join(Event(C2S, h.reply),
                 JoinAll(OfferTurns(h.V(), h.types, sectype),
                         JoinAll(AuthTurns(h.auth), JoinAll(ResultTurns(h.V(), sectype), JoinAll(last, after))))))
  {
    hide Join, JoinAll, ParseVersion, OfferTurns, AuthTurns, ResultTurns;
    var sectype := h.auth.Sectype();
    var last := [Event(C2S, [h.shared]), Event(S2C, h.init + h.name)];
    var first := [Event(S2C, h.greeting), Event(C2S, h.reply)];
    var offer, auth, result := OfferTurns(h.V(), h.types, sectype), AuthTurns(h.auth), ResultTurns(h.V(), sectype);
    JoinAllConcat(first, offer + (auth + (result + last)), after);
    JoinAllConcat(offer, auth + (result + last), after);
    JoinAllConcat(auth, result + last, after);
    JoinAllConcat(result, last, after);
    JoinAllTwo(first[0], first[1], JoinAll(offer, JoinAll(auth, JoinAll(result, JoinAll(last, after)))));
  }

  /** Every turn-taking capture that follows its handshake to the end has the turns of some script
      and a session. */
  lemma {:induction false} EveryRunIsAScript(events: seq<Event>) returns (h: Handshake, tail: seq<Event>)
    requires TurnTaking(Blank(false), events)
    requires var s := Play(Blank(false), events).scrub.state; s.phase == Done && s.facts.geometry.Some?
    ensures h.Valid() && Turns(events) == Turns(Script(h) + tail)
  {
    hide Play, TurnTaking, Turns, Join, JoinAll, Script, Exact, Follow;
    var trail;
    trail, tail := RunIsExact(Blank(false), events);
    EmptyJoins(Held(Fresh(false)), Turns(events));
    h := TrailIsScript(Play(Blank(false), events).scrub.state, trail, Turns(tail));
    TurnsConcat(Script(h), tail);
  }

  /** So the rewrite holds of runs: whatever was offered, chosen and answered, the recording is the
      `none` handshake of the same version around the same session. */
  lemma {:induction false} EveryRunIsRewritten(events: seq<Event>) returns (h: Handshake, tail: seq<Event>)
    requires TurnTaking(Blank(false), events)
    requires var s := Play(Blank(false), events).scrub.state; s.phase == Done && s.facts.geometry.Some?
    ensures h.Valid() && Turns(events) == Turns(Script(h) + tail)
    ensures Play(Blank(false), events) ==
            Clean(State(Done, Learnt(h)),
                  StrippedS2C(h.greeting, h.V(), h.init, h.name) + Arrived(tail, S2C),
                  StrippedC2S(h.reply, h.V(), h.shared) + Arrived(tail, C2S))
  {
    hide Play, TurnTaking, Turns, Script, Learnt, StrippedS2C, StrippedC2S, Arrived;
    h, tail := EveryRunIsAScript(events);
    CanonicalRewrite(h, tail, events);
  }
}
