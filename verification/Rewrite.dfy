/**
  The rewrite a stripped capture performs (vncdotool/capture.py): whatever the server
  demanded and the client answered, a followed session is recorded as the `none`
  handshake of the same protocol version around the same session bytes.
 */
module Rewrite {
  import opened Bytes
  import opened Grammar
  import opened Scrubber
  import opened Segmentation

  // ----- a successful session, as the two ends exchange it -----

  datatype Auth =
    | NoAuth
    /** The client chose type 0: the grammar skips the exchange but expects a SecurityResult. */
    | ZeroAuth
    | VncAuth(challenge: Data, response: Data)
    | ArdAuth(generator: Data, modulus: Data, serverKey: Data, credentials: Data, clientKey: Data)
  {
    function Sectype(): nat {
      match this
      case NoAuth => NONE
      case ZeroAuth => 0
      case VncAuth(_, _) => VNC_AUTHENTICATION
      case ArdAuth(_, _, _, _, _) => DIFFIE_HELLMAN
    }

    predicate Valid() {
      match this
      case NoAuth => true
      case ZeroAuth => true
      case VncAuth(challenge, response) => |challenge| == 16 && |response| == 16
      case ArdAuth(generator, modulus, serverKey, credentials, clientKey) =>
        && |generator| == 2 && |modulus| == |serverKey| == |clientKey| < 0x1_0000
        && |credentials| == ARD_CREDENTIALS_LEN
    }
  }

  datatype Handshake = Handshake(
    greeting: Data, reply: Data, types: Data, auth: Auth, shared: Byte, init: Data, name: Data)
  {
    predicate Valid() {
      && |greeting| == 12
      && |reply| == 12 && ParseVersion(reply).Some?
      && 0 < |types| < 256
      && auth.Valid() && (auth.ZeroAuth? ==> ParseVersion(reply).value.AtLeast(3, 7))
      && |init| == 24 && |name| == U32(init[20..24])
    }

    function V(): Version
      requires Valid()
    {
      ParseVersion(reply).value
    }
  }

  function OfferTurns(v: Version, types: Data, sectype: nat): seq<Event>
    requires |types| < 256 && if v.AtLeast(3, 7) then sectype < 256 else sectype < 0x1_0000_0000
  {
    if v.AtLeast(3, 7) then [Event(S2C, [|types|] + types), Event(C2S, [sectype])]
    else [Event(S2C, PutU32(sectype))]
  }

  function AuthTurns(a: Auth): seq<Event>
    requires a.Valid()
  {
    match a
    case NoAuth => []
    case ZeroAuth => []
    case VncAuth(challenge, response) => [Event(S2C, challenge), Event(C2S, response)]
    case ArdAuth(generator, modulus, serverKey, credentials, clientKey) =>
      [Event(S2C, (generator + PutU16(|modulus|)) + (modulus + serverKey)), Event(C2S, credentials + clientKey)]
  }

  function ResultTurns(v: Version, sectype: nat): seq<Event> {
    if !v.AtLeast(3, 8) && sectype == NONE then [] else [Event(S2C, PutU32(0))]
  }

  /** The handshake, turn by turn, from the greeting to the end of the server name. */
  function Script(h: Handshake): seq<Event>
    requires h.Valid()
  {
    [Event(S2C, h.greeting), Event(C2S, h.reply)]
    + (OfferTurns(h.V(), h.types, h.auth.Sectype())
       + (AuthTurns(h.auth)
          + (ResultTurns(h.V(), h.auth.Sectype())
             + [Event(C2S, [h.shared]), Event(S2C, h.init + h.name)])))
  }

  // ----- what is recorded instead -----

  function NoneOffer(v: Version): Data {
    if v.AtLeast(3, 7) then [1, NONE] else PutU32(NONE)
  }

  function NoneChoice(v: Version): Data {
    if v.AtLeast(3, 7) then [NONE] else []
  }

  function NoneResult(v: Version): Data {
    if v.AtLeast(3, 8) then PutU32(0) else []
  }

  // ----- one turn at a time -----

  /** A stripping capture with nothing pending. */
  function Clean(s: State, s2c: Data, c2s: Data): Tape {
    Tape(Scrub(false, s, [], []), s2c, c2s)
  }

  predicate Settled(s: State) {
    Sound(s.phase) && (Waiting(s.phase).Some? ==> 0 < Need(s.phase))
  }

  lemma {:induction false} Turn(s: State, s2c: Data, c2s: Data, d: Direction, data: Data, r: Drained)
    requires Settled(s) && r == Drain(false, s, d, data) && r.rest == [] && Settled(r.state)
    ensures Clean(s, s2c, c2s).scrub.Quiet()
    ensures Hear(Clean(s, s2c, c2s), Event(d, data)) ==
            if d == S2C then Clean(r.state, s2c + r.out, c2s) else Clean(r.state, s2c, c2s + r.out)
  {
    hide Drain, Waiting, Sound;
    assert [] + data == data;
    assert r.out + [] == r.out;
  }

  /** The grammar takes the chunk it wants and carries on with what follows. */
  lemma {:induction false} DrainStep(preserve: bool, s: State, d: Direction, chunk: Data, more: Data)
    requires Sound(s.phase) && Awaits(s.phase, d) && |chunk| == Need(s.phase)
    ensures Drain(preserve, s, d, chunk + more) ==
            var r := Drain(preserve, Next(preserve, s, chunk), d, more);
            r.(out := Recording(preserve, s.phase, chunk) + r.out)
  {
    hide Next, Recording, Rank, Waiting, Sound;
    assert (chunk + more)[..|chunk|] == chunk && (chunk + more)[|chunk|..] == more;
  }

  lemma {:induction false} DrainOne(preserve: bool, s: State, d: Direction, chunk: Data)
    requires Sound(s.phase) && Awaits(s.phase, d) && |chunk| == Need(s.phase)
    requires Settled(Next(preserve, s, chunk))
    ensures Drain(preserve, s, d, chunk) ==
            Drained(Next(preserve, s, chunk), [], Recording(preserve, s.phase, chunk))
  {
    hide Next, Recording, Rank, Waiting, Sound;
    assert chunk + [] == chunk;
    DrainStep(preserve, s, d, chunk, []);
    assert Recording(preserve, s.phase, chunk) + [] == Recording(preserve, s.phase, chunk);
  }

  lemma {:induction false} PlayOne(t: Tape, e: Event)
    requires t.scrub.Quiet()
    ensures Play(t, [e]) == Hear(t, e)
  {
    hide Hear;
    assert [e][1..] == [];
  }

  lemma {:induction false} PlayTwo(t: Tape, e: Event, f: Event)
    requires t.scrub.Quiet()
    ensures Play(t, [e, f]) == Hear(Hear(t, e), f)
  {
    hide Hear;
    assert [e, f][1..] == [f];
    PlayOne(Hear(t, e), f);
  }

  // ----- section by section -----

  function Opening(v: Version): Phase {
    if v.AtLeast(3, 7) then TypeCount(v) else DirectType(v)
  }

  lemma {:induction false} GreetingSection(greeting: Data, reply: Data)
    requires |greeting| == 12 && |reply| == 12 && ParseVersion(reply).Some?
    ensures var v := ParseVersion(reply).value;
            Play(Blank(false), [Event(S2C, greeting), Event(C2S, reply)]) ==
            Clean(State(Opening(v), NoFacts.(protocolVersion := Some(GreetingText(greeting)), negotiated := Some(v))),
                  greeting, reply)
  {
    hide Play, Hear, Drain, ParseVersion, GreetingText;
    DrainOne(false, Start, S2C, greeting);
    Turn(Start, [], [], S2C, greeting, Drain(false, Start, S2C, greeting));
    var s := Next(false, Start, greeting);
    DrainOne(false, s, C2S, reply);
    Turn(s, greeting, [], C2S, reply, Drain(false, s, C2S, reply));
    PlayTwo(Blank(false), Event(S2C, greeting), Event(C2S, reply));
    assert [] + greeting == greeting && [] + reply == reply;
  }

  lemma {:induction false} OfferSection(v: Version, f: Facts, s2c: Data, c2s: Data, types: Data, sectype: nat)
    requires 0 < |types| < 256
    requires if v.AtLeast(3, 7) then sectype < 256 else 0 < sectype < 0x1_0000_0000
    ensures Play(Clean(State(Opening(v), f), s2c, c2s), OfferTurns(v, types, sectype)) ==
            Clean(EnterAuth(false, v, sectype, f.(securityTypes := if v.AtLeast(3, 7) then types else [sectype])),
                  s2c + NoneOffer(v), c2s + NoneChoice(v))
  {
    hide Play, Hear, Drain;
    var s, t := State(Opening(v), f), Clean(State(Opening(v), f), s2c, c2s);
    if v.AtLeast(3, 7) {
      var count: Data := [|types|];
      DrainStep(false, s, S2C, count, types);
      var s1 := Next(false, s, count);
      DrainOne(false, s1, S2C, types);
      assert [] + [1, NONE] == [1, NONE];
      Turn(s, s2c, c2s, S2C, count + types, Drain(false, s, S2C, count + types));
      var s2 := Next(false, s1, types);
      DrainOne(false, s2, C2S, [sectype]);
      Turn(s2, s2c + [1, NONE], c2s, C2S, [sectype], Drain(false, s2, C2S, [sectype]));
      PlayTwo(t, Event(S2C, count + types), Event(C2S, [sectype]));
    } else {
      DrainOne(false, s, S2C, PutU32(sectype));
      Turn(s, s2c, c2s, S2C, PutU32(sectype), Drain(false, s, S2C, PutU32(sectype)));
      PlayOne(t, Event(S2C, PutU32(sectype)));
      assert c2s + [] == c2s;
    }
  }

  lemma {:induction false} AuthSection(v: Version, f: Facts, s2c: Data, c2s: Data, a: Auth)
    requires a.Valid()
    ensures var s := EnterAuth(false, v, a.Sectype(), f);
            Clean(s, s2c, c2s).scrub.Quiet() &&
            Play(Clean(s, s2c, c2s), AuthTurns(a)) == Clean(State(AfterAuth(v, a.Sectype()), s.facts), s2c, c2s)
  {
    hide Play, Hear, Drain;
    var s := EnterAuth(false, v, a.Sectype(), f);
    assert s2c + [] == s2c && c2s + [] == c2s;
    match a {
      case NoAuth =>
        PlayNothing(Clean(s, s2c, c2s));
      case ZeroAuth =>
        PlayNothing(Clean(s, s2c, c2s));
      case VncAuth(challenge, response) =>
        DrainOne(false, s, S2C, challenge);
        Turn(s, s2c, c2s, S2C, challenge, Drain(false, s, S2C, challenge));
        var s1 := Next(false, s, challenge);
        DrainOne(false, s1, C2S, response);
        Turn(s1, s2c, c2s, C2S, response, Drain(false, s1, C2S, response));
        PlayTwo(Clean(s, s2c, c2s), Event(S2C, challenge), Event(C2S, response));
      case ArdAuth(generator, modulus, serverKey, credentials, clientKey) =>
        ArdKeys(v, s.facts, generator, modulus, serverKey);
        ArdReply(v, s.facts, credentials, clientKey);
        var keys := (generator + PutU16(|modulus|)) + (modulus + serverKey);
        var s1 := State(ArdCredentials(v, |modulus|), s.facts);
        Turn(s, s2c, c2s, S2C, keys, Drain(false, s, S2C, keys));
        Turn(s1, s2c, c2s, C2S, credentials + clientKey, Drain(false, s1, C2S, credentials + clientKey));
        PlayTwo(Clean(s, s2c, c2s), Event(S2C, keys), Event(C2S, credentials + clientKey));
    }
  }

  lemma {:induction false} PlayNothing(t: Tape)
    requires t.scrub.Quiet()
    ensures Play(t, []) == t
  {
  }

  lemma {:induction false} ArdKeys(v: Version, f: Facts, generator: Data, modulus: Data, serverKey: Data)
    requires |generator| == 2 && |modulus| == |serverKey| < 0x1_0000
    ensures Drain(false, State(ArdHead(v), f), S2C, (generator + PutU16(|modulus|)) + (modulus + serverKey)) ==
            Drained(State(ArdCredentials(v, |modulus|), f), [], [])
  {
    hide Drain;
    var s := State(ArdHead(v), f);
    var head := generator + PutU16(|modulus|);
    assert head[2..4] == PutU16(|modulus|);
    DrainStep(false, s, S2C, head, modulus + serverKey);
    var s1 := State(ArdModulus(v, |modulus|), f);
    DrainStep(false, s1, S2C, modulus, serverKey);
    DrainOne(false, State(ArdServerKey(v, |modulus|), f), S2C, serverKey);
  }

  lemma {:induction false} ArdReply(v: Version, f: Facts, credentials: Data, clientKey: Data)
    requires |credentials| == ARD_CREDENTIALS_LEN
    ensures Drain(false, State(ArdCredentials(v, |clientKey|), f), C2S, credentials + clientKey) ==
            Drained(State(SecurityResult(v), f), [], [])
  {
    hide Drain;
    DrainStep(false, State(ArdCredentials(v, |clientKey|), f), C2S, credentials, clientKey);
    DrainOne(false, State(ArdClientKey(v, |clientKey|), f), C2S, clientKey);
  }

  lemma {:induction false} ResultSection(v: Version, f: Facts, s2c: Data, c2s: Data, sectype: nat)
    ensures var s := State(AfterAuth(v, sectype), f);
            Play(Clean(s, s2c, c2s), ResultTurns(v, sectype)) ==
            Clean(State(ClientInit, f), s2c + NoneResult(v), c2s)
  {
    hide Play, Hear, Drain;
    var s := State(AfterAuth(v, sectype), f);
    if !v.AtLeast(3, 8) && sectype == NONE {
      PlayNothing(Clean(s, s2c, c2s));
      assert s2c + [] == s2c;
    } else {
      DrainOne(false, s, S2C, PutU32(0));
      Turn(s, s2c, c2s, S2C, PutU32(0), Drain(false, s, S2C, PutU32(0)));
      PlayOne(Clean(s, s2c, c2s), Event(S2C, PutU32(0)));
    }
  }

  function Geometry(init: Data): (nat, nat)
    requires |init| == 24
  {
    (U16(init[0..2]), U16(init[2..4]))
  }

  /** The geometry is the one the server announced: width, then height. */
  lemma {:induction false} GeometryReadsBack(width: nat, height: nat, rest: Data)
    requires width < 0x1_0000 && height < 0x1_0000 && |rest| == 20
    ensures Geometry((PutU16(width) + PutU16(height)) + rest) == (width, height)
  {
    hide U16, PutU16;
    var init := (PutU16(width) + PutU16(height)) + rest;
    assert init[0..2] == PutU16(width) && init[2..4] == PutU16(height);
  }

  lemma {:induction false} InitSection(f: Facts, s2c: Data, c2s: Data, shared: Byte, init: Data, name: Data)
    requires |init| == 24 && |name| == U32(init[20..24])
    ensures Play(Clean(State(ClientInit, f), s2c, c2s), [Event(C2S, [shared]), Event(S2C, init + name)]) ==
            Clean(State(Done, f.(geometry := Some(Geometry(init)))), s2c + (init + name), c2s + [shared])
  {
    hide Play, Hear, Drain;
    var s := State(ClientInit, f);
    DrainOne(false, s, C2S, [shared]);
    Turn(s, s2c, c2s, C2S, [shared], Drain(false, s, C2S, [shared]));
    var s1 := State(ServerInit, f);
    DrainStep(false, s1, S2C, init, name);
    var s2 := Next(false, s1, init);
    if name == [] {
      DrainIdle(false, s2, S2C, []);
    } else {
      DrainOne(false, s2, S2C, name);
    }
    Turn(s1, s2c, c2s + [shared], S2C, init + name, Drain(false, s1, S2C, init + name));
    PlayTwo(Clean(s, s2c, c2s), Event(C2S, [shared]), Event(S2C, init + name));
  }

  /** Past the handshake both directions are recorded as they arrive. */
  lemma {:induction false} SessionSection(f: Facts, s2c: Data, c2s: Data, tail: seq<Event>)
    ensures Play(Clean(State(Done, f), s2c, c2s), tail) ==
            Clean(State(Done, f), s2c + Arrived(tail, S2C), c2s + Arrived(tail, C2S))
    decreases |tail|
  {
    hide Feed, Hear, Drain;
    var s := State(Done, f);
    if tail == [] {
      assert s2c + [] == s2c && c2s + [] == c2s;
    } else {
      var e := tail[0];
      DoneHears(f, s2c, c2s, e);
      if e.dir == S2C {
        SessionSection(f, s2c + e.data, c2s, tail[1..]);
        Associative(s2c, e.data, Arrived(tail[1..], S2C));
        assert [] + Arrived(tail[1..], C2S) == Arrived(tail[1..], C2S);
      } else {
        SessionSection(f, s2c, c2s + e.data, tail[1..]);
        Associative(c2s, e.data, Arrived(tail[1..], C2S));
        assert [] + Arrived(tail[1..], S2C) == Arrived(tail[1..], S2C);
      }
    }
  }

  lemma {:induction false} DoneHears(f: Facts, s2c: Data, c2s: Data, e: Event)
    ensures Hear(Clean(State(Done, f), s2c, c2s), e) ==
            if e.dir == S2C then Clean(State(Done, f), s2c + e.data, c2s)
            else Clean(State(Done, f), s2c, c2s + e.data)
  {
    hide Drain;
    var s := State(Done, f);
    DrainIdle(false, s, e.dir, [] + e.data);
    assert [] + ([] + e.data) == e.data;
  }

  // ----- the whole capture -----

  /** What the scrubber knows once it has followed `h`. */
  function Learnt(h: Handshake): Facts
    requires h.Valid()
  {
    var v := h.V();
    Facts(Some(GreetingText(h.greeting)), Some(v),
          if v.AtLeast(3, 7) then h.types else [h.auth.Sectype()],
          Some(h.auth.Sectype()), None, None, Some(Geometry(h.init)))
  }

  /** s2c.bin and c2s.bin of the handshake. Neither mentions `types` nor `auth`. */
  function StrippedS2C(greeting: Data, v: Version, init: Data, name: Data): Data {
    ((greeting + NoneOffer(v)) + NoneResult(v)) + (init + name)
  }

  function StrippedC2S(reply: Data, v: Version, shared: Byte): Data {
    (reply + NoneChoice(v)) + [shared]
  }

  lemma {:induction false} ScriptRecords(h: Handshake)
    requires h.Valid()
    ensures Play(Blank(false), Script(h)) ==
            Clean(State(Done, Learnt(h)),
                  StrippedS2C(h.greeting, h.V(), h.init, h.name), StrippedC2S(h.reply, h.V(), h.shared))
  {
    hide Play, Hear, Feed, Drain, ParseVersion, GreetingText;
    var v, sectype := h.V(), h.auth.Sectype();
    var f := NoFacts.(protocolVersion := Some(GreetingText(h.greeting)), negotiated := Some(v));
    var f1 := f.(securityTypes := if v.AtLeast(3, 7) then h.types else [sectype]);
    var s := EnterAuth(false, v, sectype, f1);
    var last := [Event(C2S, [h.shared]), Event(S2C, h.init + h.name)];
    GreetingSection(h.greeting, h.reply);
    PlayConcat(Blank(false), [Event(S2C, h.greeting), Event(C2S, h.reply)],
               OfferTurns(v, h.types, sectype) + (AuthTurns(h.auth) + (ResultTurns(v, sectype) + last)));
    OfferSection(v, f, h.greeting, h.reply, h.types, sectype);
    var s2c, c2s := h.greeting + NoneOffer(v), h.reply + NoneChoice(v);
    PlayConcat(Clean(State(Opening(v), f), h.greeting, h.reply), OfferTurns(v, h.types, sectype),
               AuthTurns(h.auth) + (ResultTurns(v, sectype) + last));
    AuthSection(v, f1, s2c, c2s, h.auth);
    PlayConcat(Clean(s, s2c, c2s), AuthTurns(h.auth), ResultTurns(v, sectype) + last);
    ResultSection(v, s.facts, s2c, c2s, sectype);
    PlayConcat(Clean(State(AfterAuth(v, sectype), s.facts), s2c, c2s), ResultTurns(v, sectype), last);
    InitSection(s.facts, s2c + NoneResult(v), c2s, h.shared, h.init, h.name);
  }

  /** For every followed handshake, every session after it and every way of cutting the bytes,
      the recording is the version replies, ClientInit, ServerInit, name and session bytes of
      that capture around a fixed `none` exchange; SecurityResult is kept exactly from 3.8 up. */
  lemma {:induction false} CanonicalRewrite(h: Handshake, tail: seq<Event>, events: seq<Event>)
    requires h.Valid()
    requires Turns(events) == Turns(Script(h) + tail)
    ensures Play(Blank(false), events) ==
            Clean(State(Done, Learnt(h)),
                  StrippedS2C(h.greeting, h.V(), h.init, h.name) + Arrived(tail, S2C),
                  StrippedC2S(h.reply, h.V(), h.shared) + Arrived(tail, C2S))
  {
    hide Play, Turns, Script, Learnt, StrippedS2C, StrippedC2S, Arrived;
    CaptureIgnoresChunking(Blank(false), events, Script(h) + tail);
    PlayConcat(Blank(false), Script(h), tail);
    ScriptRecords(h);
    SessionSection(Learnt(h), StrippedS2C(h.greeting, h.V(), h.init, h.name),
                   StrippedC2S(h.reply, h.V(), h.shared), tail);
  }

  /** Captures of sessions that differ only in what was offered and how the client
      authenticated are the same two files. */
  lemma {:induction false} AuthLeavesNoTrace(h: Handshake, types: Data, auth: Auth, tail: seq<Event>,
                                             es: seq<Event>, fs: seq<Event>)
    requires h.Valid() && h.(types := types, auth := auth).Valid()
    requires Turns(es) == Turns(Script(h) + tail)
    requires Turns(fs) == Turns(Script(h.(types := types, auth := auth)) + tail)
    ensures Play(Blank(false), es).s2c == Play(Blank(false), fs).s2c
    ensures Play(Blank(false), es).c2s == Play(Blank(false), fs).c2s
  {
    hide Play, Turns, Script, Learnt, StrippedS2C, StrippedC2S, Arrived;
    CanonicalRewrite(h, tail, es);
    CanonicalRewrite(h.(types := types, auth := auth), tail, fs);
  }
}
