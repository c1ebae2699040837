/**
  Handshakes that end before there is a session (vncdotool/capture.py): what a stripping capture
  records of them, what it knows, and when it must not be written at all.
 */
module Endings {
  import opened Bytes
  import opened Grammar
  import opened Scrubber
  import opened Segmentation
  import opened Rewrite
  import opened Idempotence
  import opened Runs

  /** The ways a handshake ends early. */
  datatype Failure =
    /** The client's version reply cannot be read. */
    | Unreadable
    /** The server offers nothing. */
    | Refusal
    /** A type whose exchange has no grammar. */
    | UnknownExchange(types: Data, sectype: nat)
    /** A SecurityResult other than 0. */
    | FailedLogin(types: Data, auth: Auth, result: Data)

  datatype Attempt = Attempt(greeting: Data, reply: Data, failure: Failure) {
    predicate Valid() {
      && |greeting| == 12 && |reply| == 12
      && (failure.Unreadable? <==> ParseVersion(reply).None?)
      && match failure
         case Unreadable => true
         case Refusal => true
         case UnknownExchange(types, sectype) =>
           && 0 < |types| < 256 && !Followable(sectype)
           && sectype < if V().AtLeast(3, 7) then 256 else 0x1_0000_0000
         case FailedLogin(types, auth, result) =>
           && 0 < |types| < 256 && auth.Valid() && (auth.ZeroAuth? ==> V().AtLeast(3, 7))
           && (V().AtLeast(3, 8) || !auth.NoAuth?)
           && |result| == 4 && U32(result) != 0
    }

    function V(): Version
      requires |reply| == 12 && ParseVersion(reply).Some?
    {
      ParseVersion(reply).value
    }
  }

  /** The attempt, turn by turn. */
  function AttemptScript(a: Attempt): seq<Event>
    requires a.Valid()
  {
    [Event(S2C, a.greeting), Event(C2S, a.reply)] +
    match a.failure
    case Unreadable => []
    case Refusal => [Event(S2C, RefusalBytes(a.V()))]
    case UnknownExchange(types, sectype) => OfferTurns(a.V(), types, sectype)
    case FailedLogin(types, auth, result) =>
      OfferTurns(a.V(), types, auth.Sectype()) + (AuthTurns(auth) + [Event(S2C, result)])
  }

  // ----- what must be recorded -----

  /** s2c.bin: the refusal as it came; otherwise a `none` offer, and a failed result only where a
      `none` handshake of that version has a place for it. */
  function AttemptS2C(a: Attempt): Data
    requires a.Valid()
  {
    match a.failure
    case Unreadable => a.greeting
    case Refusal => a.greeting + RefusalBytes(a.V())
    case UnknownExchange(_, _) => a.greeting + NoneOffer(a.V())
    case FailedLogin(_, _, result) =>
      (a.greeting + NoneOffer(a.V())) + if a.V().AtLeast(3, 8) then result else []
  }

  function AttemptC2S(a: Attempt): Data
    requires a.Valid()
  {
    if a.failure.Unreadable? || a.failure.Refusal? then a.reply else a.reply + NoneChoice(a.V())
  }

  /** What is known at the end. The capture is given up exactly where the credentials cannot be told
      from the rest. */
  function AttemptFacts(a: Attempt): Facts
    requires a.Valid()
  {
    var f := NoFacts.(protocolVersion := Some(GreetingText(a.greeting)));
    match a.failure
    case Unreadable => f.(abort := Some(UnreadableVersion))
    case Refusal => f.(negotiated := Some(a.V()))
    case UnknownExchange(types, sectype) =>
      Facts(f.protocolVersion, Some(a.V()), if a.V().AtLeast(3, 7) then types else [sectype], Some(sectype),
            Some(sectype), Some(Unfollowable(sectype)), None)
    case FailedLogin(types, auth, _) =>
      Facts(f.protocolVersion, Some(a.V()), if a.V().AtLeast(3, 7) then types else [auth.Sectype()],
            Some(auth.Sectype()), None, None, None)
  }

  // ----- section by section -----

  lemma {:induction false} GreetingNext(greeting: Data)
    requires |greeting| == 12
    ensures Next(false, Start, greeting) ==
            State(VersionReply, NoFacts.(protocolVersion := Some(GreetingText(greeting))))
    ensures Recording(false, Greeting, greeting) == greeting
  {
    hide GreetingText;
  }

  lemma {:induction false} UnreadableNext(f: Facts, reply: Data)
    requires |reply| == 12 && ParseVersion(reply).None?
    ensures Next(false, State(VersionReply, f), reply) == State(Done, f.(abort := Some(UnreadableVersion)))
    ensures Recording(false, VersionReply, reply) == reply
  {
    hide ParseVersion;
  }

  lemma {:induction false} UnreadableSection(greeting: Data, reply: Data)
    requires |greeting| == 12 && |reply| == 12 && ParseVersion(reply).None?
    ensures Play(Blank(false), [Event(S2C, greeting), Event(C2S, reply)]) ==
            Clean(State(Done, NoFacts.(protocolVersion := Some(GreetingText(greeting)),
                                       abort := Some(UnreadableVersion))), greeting, reply)
  {
    hide Play, Hear, Drain, ParseVersion, GreetingText, Rank, Next, Recording;
    var s := Next(false, Start, greeting);
    GreetingNext(greeting);
    UnreadableNext(s.facts, reply);
    DrainOne(false, Start, S2C, greeting);
    Turn(Start, [], [], S2C, greeting, Drain(false, Start, S2C, greeting));
    DrainOne(false, s, C2S, reply);
    Turn(s, greeting, [], C2S, reply, Drain(false, s, C2S, reply));
    PlayTwo(Blank(false), Event(S2C, greeting), Event(C2S, reply));
    assert [] + greeting == greeting && [] + reply == reply;
  }

  /** One last chunk from the server. */
  lemma {:induction false} LastWord(s: State, chunk: Data, s2c: Data, c2s: Data)
    requires Settled(s) && Awaits(s.phase, S2C) && |chunk| == Need(s.phase) && Next(false, s, chunk).phase == Done
    ensures Clean(s, s2c, c2s).scrub.Quiet()
    ensures Play(Clean(s, s2c, c2s), [Event(S2C, chunk)]) ==
            Clean(Next(false, s, chunk), s2c + Recording(false, s.phase, chunk), c2s)
  {
    hide Play, Hear, Drain, Next, Recording;
    DrainOne(false, s, S2C, chunk);
    Turn(s, s2c, c2s, S2C, chunk, Drain(false, s, S2C, chunk));
    PlayOne(Clean(s, s2c, c2s), Event(S2C, chunk));
  }

  lemma {:induction false} RefusalSection(v: Version, f: Facts, s2c: Data, c2s: Data)
    ensures Play(Clean(State(Opening(v), f), s2c, c2s), [Event(S2C, RefusalBytes(v))]) ==
            Clean(State(Done, f), s2c + RefusalBytes(v), c2s)
  {
    hide Play;
    LastWord(State(Opening(v), f), RefusalBytes(v), s2c, c2s);
  }

  lemma {:induction false} FailedSection(v: Version, f: Facts, s2c: Data, c2s: Data, result: Data)
    requires |result| == 4 && U32(result) != 0
    ensures Play(Clean(State(SecurityResult(v), f), s2c, c2s), [Event(S2C, result)]) ==
            Clean(State(Done, f), s2c + (if v.AtLeast(3, 8) then result else []), c2s)
  {
    hide Play, U32;
    LastWord(State(SecurityResult(v), f), result, s2c, c2s);
  }

  lemma {:induction false} AttemptRecords(a: Attempt)
    requires a.Valid()
    ensures Play(Blank(false), AttemptScript(a)) == Clean(State(Done, AttemptFacts(a)), AttemptS2C(a), AttemptC2S(a))
  {
    hide Play, Hear, Feed, Drain, ParseVersion, GreetingText, U32, RefusalBytes, NoneOffer, NoneChoice;
    var first := [Event(S2C, a.greeting), Event(C2S, a.reply)];
    if a.failure.Unreadable? {
      UnreadableSection(a.greeting, a.reply);
      assert first + [] == first;
    } else {
      var v := a.V();
      var f := NoFacts.(protocolVersion := Some(GreetingText(a.greeting)), negotiated := Some(v));
      var s := State(Opening(v), f);
      GreetingSection(a.greeting, a.reply);
      PlayConcat(Blank(false), first, AttemptScript(a)[2..]);
      assert AttemptScript(a) == first + AttemptScript(a)[2..];
      match a.failure {
        case Refusal =>
          RefusalSection(v, f, a.greeting, a.reply);
          assert AttemptScript(a)[2..] == [Event(S2C, RefusalBytes(v))];
        case UnknownExchange(types, sectype) =>
          OfferSection(v, f, a.greeting, a.reply, types, sectype);
          assert AttemptScript(a)[2..] == OfferTurns(v, types, sectype);
        case FailedLogin(types, auth, result) =>
          FailedLoginRecords(a, f);
          assert AttemptScript(a)[2..] ==
                 OfferTurns(v, types, auth.Sectype()) + (AuthTurns(auth) + [Event(S2C, result)]);
      }
    }
  }

  lemma {:induction false} FailedLoginRecords(a: Attempt, f: Facts)
    requires a.Valid() && a.failure.FailedLogin?
    requires f == NoFacts.(protocolVersion := Some(GreetingText(a.greeting)), negotiated := Some(a.V()))
    ensures var x := a.failure;
            Play(Clean(State(Opening(a.V()), f), a.greeting, a.reply),
                 OfferTurns(a.V(), x.types, x.auth.Sectype()) + (AuthTurns(x.auth) + [Event(S2C, x.result)])) ==
            Clean(State(Done, AttemptFacts(a)), AttemptS2C(a), AttemptC2S(a))
  {
    hide Play, Hear, Feed, Drain, ParseVersion, GreetingText, U32, NoneOffer, NoneChoice;
    var x, v, sectype := a.failure, a.V(), a.failure.auth.Sectype();
    var f1 := f.(securityTypes := if v.AtLeast(3, 7) then x.types else [sectype]);
    var s := EnterAuth(false, v, sectype, f1);
    var s2c, c2s, last := a.greeting + NoneOffer(v), a.reply + NoneChoice(v), [Event(S2C, x.result)];
    OfferSection(v, f, a.greeting, a.reply, x.types, sectype);
    PlayConcat(Clean(State(Opening(v), f), a.greeting, a.reply),
               OfferTurns(v, x.types, sectype), AuthTurns(x.auth) + last);
    AuthSection(v, f1, s2c, c2s, x.auth);
    PlayConcat(Clean(s, s2c, c2s), AuthTurns(x.auth), last);
    FailedSection(v, s.facts, s2c, c2s, x.result);
  }

  /** For every attempt, every byte after it and every way of cutting them: the recording, byte for
      byte, and everything the capture knows. */
  lemma {:induction false} EarlyEnding(a: Attempt, tail: seq<Event>, events: seq<Event>)
    requires a.Valid() && Turns(events) == Turns(AttemptScript(a) + tail)
    ensures Play(Blank(false), events) ==
            Clean(State(Done, AttemptFacts(a)),
                  AttemptS2C(a) + Arrived(tail, S2C), AttemptC2S(a) + Arrived(tail, C2S))
  {
    hide Play, Turns, AttemptScript, AttemptFacts, AttemptS2C, AttemptC2S, Arrived;
    CaptureIgnoresChunking(Blank(false), events, AttemptScript(a) + tail);
    PlayConcat(Blank(false), AttemptScript(a), tail);
    AttemptRecords(a);
    SessionSection(AttemptFacts(a), AttemptS2C(a), AttemptC2S(a), tail);
  }

  // ----- every run -----

  lemma {:induction false} TrailIsAttempt(end: State, trail: seq<Event>, after: seq<Event>) returns (a: Attempt)
    requires Completes(Start, trail, end) && end.facts.geometry.None?
    ensures a.Valid() && JoinAll(trail, after) == JoinAll(AttemptScript(a), after)
  {
    hide Join, Follow, Exact, JoinAll, ParseVersion, GreetingText, OfferTurns, AuthTurns, ResultTurns;
    hide RefusalBytes, U32;
    OnTheWay(Start, trail, end);
    var greeting, trail1 := trail[0].data, trail[1..];
    var s1 := Next(false, Start, greeting);
    OnTheWay(s1, trail1, end);
    var reply, trail2 := trail1[0].data, trail1[1..];
    var s2 := Next(false, s1, reply);
    JoinAllTwo(Event(S2C, greeting), Event(C2S, reply), JoinAll(trail2, after));
    if ParseVersion(reply).None? {
      Ended(end, s2, trail2);
      a := Attempt(greeting, reply, Unreadable);
      NoJoins(after);
    } else {
      var v := ParseVersion(reply).value;
      var refused, types, sectype, f, trail3 := ParseOffer(end, s2, v, trail2, after);
      if refused {
        a := Attempt(greeting, reply, Refusal);
        JoinAllTwo(Event(S2C, RefusalBytes(v)), Event(S2C, []), after);
      } else if !Followable(sectype) {
        Ended(end, EnterAuth(false, v, sectype, f), trail3);
        a := Attempt(greeting, reply, UnknownExchange(types, sectype));
        NoJoins(after);
      } else {
        var auth, s4, trail4 := ParseAuth(end, f, v, sectype, trail3, after);
        var result, s5, trail5 := ParseResult(end, s4, v, sectype, trail4, after);
        if result.None? {
          var shared, init, name := ParseInit(end, s5, trail5, after);
        }
        a := Attempt(greeting, reply, FailedLogin(types, auth, result.value));
        JoinAllTwo(Event(S2C, result.value), Event(S2C, []), after);
        JoinAllConcat(OfferTurns(v, types, sectype), AuthTurns(auth) + [Event(S2C, result.value)], after);
        JoinAllConcat(AuthTurns(auth), [Event(S2C, result.value)], after);
      }
    }
    JoinAllConcat([Event(S2C, greeting), Event(C2S, reply)], AttemptScript(a)[2..], after);
    assert AttemptScript(a) == [Event(S2C, greeting), Event(C2S, reply)] + AttemptScript(a)[2..];
    AttemptTurns(a);
  }

  lemma {:induction false} NoJoins(after: seq<Event>)
    ensures JoinAll([], after) == after
  {
  }

  lemma {:induction false} AttemptTurns(a: Attempt)
    requires a.Valid()
    ensures AttemptScript(a)[2..] ==
            match a.failure
            case Unreadable => []
            case Refusal => [Event(S2C, RefusalBytes(a.V()))]
            case UnknownExchange(types, sectype) => OfferTurns(a.V(), types, sectype)
            case FailedLogin(types, auth, result) =>
              OfferTurns(a.V(), types, auth.Sectype()) + (AuthTurns(auth) + [Event(S2C, result)])
  {
    hide ParseVersion, OfferTurns, AuthTurns, RefusalBytes, U32;
  }

  /** Every turn-taking capture whose handshake ends without a session is one of these attempts, and
      is recorded and known accordingly. */
  lemma {:induction false} EveryEarlyEnding(events: seq<Event>) returns (a: Attempt, tail: seq<Event>)
    requires TurnTaking(Blank(false), events)
    requires var s := Play(Blank(false), events).scrub.state; s.phase == Done && s.facts.geometry.None?
    ensures a.Valid() && Turns(events) == Turns(AttemptScript(a) + tail)
    ensures Play(Blank(false), events) ==
            Clean(State(Done, AttemptFacts(a)),
                  AttemptS2C(a) + Arrived(tail, S2C), AttemptC2S(a) + Arrived(tail, C2S))
  {
    hide Play, TurnTaking, Turns, Join, JoinAll, AttemptScript, Exact, Follow;
    hide AttemptFacts, AttemptS2C, AttemptC2S, Arrived;
    var trail;
    trail, tail := RunIsExact(Blank(false), events);
    EmptyJoins(Held(Fresh(false)), Turns(events));
    a := TrailIsAttempt(Play(Blank(false), events).scrub.state, trail, Turns(tail));
    TurnsConcat(AttemptScript(a), tail);
    EarlyEnding(a, tail, events);
  }

  // ----- when a capture must not be written -----

  /** Given up exactly if the version reply could not be read, or the type has no grammar, which
      `unstrippable` then names. */
  predicate AbortSound(s: State) {
    var f := s.facts;
    && (f.negotiated.None? ==> (s.phase.Greeting? || s.phase.VersionReply? || s.phase.Done?) && f.securityType.None?)
    && (s.phase.Greeting? || s.phase.VersionReply? ==> f.negotiated.None?)
    && f.unstrippable == (if f.securityType.Some? && !Followable(f.securityType.value) then f.securityType else None)
    && f.abort == if s.phase == Done && f.negotiated.None? then Some(UnreadableVersion)
                  else if f.unstrippable.Some? then Some(Unfollowable(f.unstrippable.value))
                  else None
  }

  lemma {:induction false} NextAborts(s: State, chunk: Data)
    requires Waiting(s.phase).Some? && |chunk| == Need(s.phase) && Sound(s.phase) && AbortSound(s)
    requires s.facts.securityType.Some? ==> Followable(s.facts.securityType.value)
    ensures AbortSound(Next(false, s, chunk))
    ensures var t := Next(false, s, chunk);
            t.phase != Done && t.facts.securityType.Some? ==> Followable(t.facts.securityType.value)
  {
    hide ParseVersion, GreetingText, U32, U16;
  }

  /** Past an unfollowable type there is nothing to wait for. */
  predicate Live(s: State) {
    s.phase != Done && s.facts.securityType.Some? ==> Followable(s.facts.securityType.value)
  }

  lemma {:induction false} DrainAborts(s: State, d: Direction, buf: Data)
    requires Sound(s.phase) && AbortSound(s) && Live(s)
    ensures AbortSound(Drain(false, s, d, buf).state) && Live(Drain(false, s, d, buf).state)
    decreases Rank(s.phase)
  {
    hide Next, Recording, Rank, AbortSound, Followable;
    if Awaits(s.phase, d) && |buf| >= Need(s.phase) {
      var n := Need(s.phase);
      NextAborts(s, buf[..n]);
      DrainAborts(Next(false, s, buf[..n]), d, buf[n..]);
    }
  }

  /** Over every run at all, in turn or not: the capture is given up exactly for those two reasons. */
  lemma {:induction false} AbortsExactly(t: Tape, events: seq<Event>)
    requires t.scrub.Quiet() && !t.scrub.preserve && AbortSound(t.scrub.state) && Live(t.scrub.state)
    ensures AbortSound(Play(t, events).scrub.state)
    decreases |events|
  {
    hide Drain, AbortSound, Live;
    if events != [] {
      var e := events[0];
      DrainAborts(t.scrub.state, e.dir, t.scrub.Pending(e.dir) + e.data);
      AbortsExactly(Hear(t, e), events[1..]);
    }
  }

  lemma {:induction false} AbortsFromTheStart(events: seq<Event>)
    ensures AbortSound(Play(Blank(false), events).scrub.state)
  {
    hide Play;
    AbortsExactly(Blank(false), events);
  }

  // ----- preserve_auth never gives up -----

  function Unaborted(s: State): State {
    s.(facts := s.facts.(abort := None))
  }

  lemma {:induction false} NextUnaborted(s: State, chunk: Data)
    requires Waiting(s.phase).Some? && |chunk| == Need(s.phase) && Sound(s.phase)
    ensures Next(true, Unaborted(s), chunk) == Unaborted(Next(false, s, chunk))
  {
    hide ParseVersion, GreetingText, U32, U16;
  }

  lemma {:induction false} DrainUnaborted(s: State, d: Direction, buf: Data)
    requires Sound(s.phase)
    ensures var r, q := Drain(false, s, d, buf), Drain(true, Unaborted(s), d, buf);
            q.state == Unaborted(r.state) && q.rest == r.rest
    decreases Rank(s.phase)
  {
    hide Next, Recording, Rank;
    if Awaits(s.phase, d) && |buf| >= Need(s.phase) {
      var n := Need(s.phase);
      NextUnaborted(s, buf[..n]);
      DrainUnaborted(Next(false, s, buf[..n]), d, buf[n..]);
    }
  }

  lemma {:induction false} PlayUnaborted(t: Tape, u: Tape, events: seq<Event>)
    requires t.scrub.Quiet() && !t.scrub.preserve && u.scrub.Quiet()
    requires u.scrub == t.scrub.(preserve := true, state := Unaborted(t.scrub.state))
    ensures var x := Play(t, events).scrub;
            Play(u, events).scrub == x.(preserve := true, state := Unaborted(x.state))
    decreases |events|
  {
    hide Drain;
    if events != [] {
      var e := events[0];
      DrainUnaborted(t.scrub.state, e.dir, t.scrub.Pending(e.dir) + e.data);
      PlayUnaborted(Hear(t, e), Hear(u, e), events[1..]);
    }
  }

  /** Over every run: with `preserve_auth` the scrubber stands and knows exactly what it does without,
      except that it never gives up. */
  lemma {:induction false} PreserveNeverAborts(events: seq<Event>)
    ensures var x := Play(Blank(false), events).scrub;
            Play(Blank(true), events).scrub == x.(preserve := true, state := Unaborted(x.state))
  {
    hide Play;
    PlayUnaborted(Blank(false), Blank(true), events);
  }
}
