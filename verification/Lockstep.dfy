/**
  The scrubber and the client read one handshake the same way (vncdotool/capture.py `_run`
  against the `RFBClient` handlers of vncdotool/rfb.py): they agree on every boundary, in
  both directions, up to the end of the server name.
 */
module Lockstep {
  import opened Bytes
  import opened Grammar
  import opened Scrubber
  import opened Segmentation
  import opened Rewrite
  import opened ClientHandshake

  /** The armed handler and the grammar position that belong together. */
  predicate Together(h: Armed, p: Phase) {
    match h
    case Hello => p == Greeting
    case NumberSecurityTypes(v) => p == TypeCount(v)
    case SecurityTypes(v, count) => p == TypeList(v, count) && Sound(p)
    case AuthScheme(v) => p == DirectType(v) && !v.AtLeast(3, 7)
    case VncChallenge(v) => p == Challenge(v)
    case DHHead(v) => p == ArdHead(v)
    case DHKey(v, _, keyLen) => p == ArdModulus(v, keyLen)
    case DHCert(v, _, modulus) => p == ArdServerKey(v, |modulus|)
    case AuthResult(v) => p == SecurityResult(v)
    case Init => p == ServerInit
    case Name(length) => if length == 0 then p == Done else p == ServerName(length)
    case Connected => p == Done
    case _ => false
  }

  /** Everywhere before the end, both want the same number of server bytes next. */
  lemma {:induction false} SameBoundary(h: Armed, p: Phase)
    requires Together(h, p)
    ensures Sound(p)
    ensures p != Done ==> Active(h) && Waiting(p) == Some(Want(S2C, Expected(h)))
    ensures p == Done ==> h == Connected || h == Name(0)
  {
  }

  lemma {:induction false} NoTrim(s: Data)
    requires |s| == 3 && IsDigit(s[0]) && IsDigit(s[1]) && IsDigit(s[2])
    ensures TrimRight(TrimLeft(s)) == s
  {
  }

  /** On three digits Python's int and the client's reading agree. */
  lemma {:induction false} DigitsReadBack(s: Data)
    requires |s| == 3 && IsDigit(s[0]) && IsDigit(s[1]) && IsDigit(s[2])
    ensures PythonInt(s) == Some(ThreeDigits(s))
  {
    NoTrim(s);
    assert IsNumeral(s);
    var s2, s1 := s[..2], s[..1];
    assert s2[..1] == s1 && s1[..0] == [];
    assert Decimal(s1) == s[0] as int - 48;
    assert Decimal(s2) == 10 * Decimal(s1) + (s[1] as int - 48);
    assert Decimal(s) == 10 * Decimal(s2) + (s[2] as int - 48);
  }

  /** Any well-formed version line means the same to the scrubber and to the client. */
  lemma {:induction false} GreetingReadsBack(head: Data)
    requires |head| == 12 && IsGreeting(head)
    ensures ParseVersion(head) == Some(Version(ThreeDigits(head[4..7]), ThreeDigits(head[8..11])))
  {
    assert IsDigit(head[4]) && IsDigit(head[5]) && IsDigit(head[6]);
    assert IsDigit(head[8]) && IsDigit(head[9]) && IsDigit(head[10]);
    hide PythonInt, IsDigit;
    DigitsReadBack(head[4..7]);
    DigitsReadBack(head[8..11]);
  }

  lemma {:induction false} ReplyIsGreeting(v: Version)
    requires v in {Version(3, 3), Version(3, 7), Version(3, 8)}
    ensures |Reply(v)| == 12 && IsGreeting(Reply(v))
    ensures Reply(v)[4..7] == [48, 48, 48 + v.major] && Reply(v)[8..11] == [48, 48, 48 + v.minor]
  {
    var major: Data, minor: Data := [48, 48, 48 + v.major], [48, 48, 48 + v.minor];
    assert Reply(v) == HEADER[..4] + major + [46] + minor + [10];
    assert Reply(v)[4..7] == major && Reply(v)[8..11] == minor;
  }

  lemma {:induction false} LastDigit(n: int)
    requires 0 <= n < 10
    ensures ThreeDigits([48, 48, 48 + n]) == n
  {
  }

  /** The client's own version replies read back as the versions it means. */
  lemma {:induction false} ReplyReadsBack(v: Version)
    requires v in {Version(3, 3), Version(3, 7), Version(3, 8)}
    ensures |Reply(v)| == 12 && ParseVersion(Reply(v)) == Some(v)
  {
    hide ParseVersion, ThreeDigits, Reply, IsGreeting;
    ReplyIsGreeting(v);
    GreetingReadsBack(Reply(v));
    LastDigit(v.major);
    LastDigit(v.minor);
  }

  /** One server block, read by both: the grammar then waits for exactly the bytes the client
      wrote, and after them the two are together again. */
  predicate Follows(k: Secrets, h: Armed, s: State, block: Data)
    requires Active(h) && |block| == Expected(h)
    requires Sound(s.phase) && Waiting(s.phase).Some? && |block| == Need(s.phase)
  {
    var r := Handle(k, h, block);
    var d := Drain(false, Next(false, s, block), C2S, r.wrote);
    d.rest == [] && Together(r.armed, d.state.phase)
  }

  /** The lengths the grammar takes on trust: 16 bytes of VNC response, and for ARD 128 bytes of
      credentials with a key as long as the modulus. */
  predicate Answers(k: Secrets, h: Armed, block: Data)
    requires Active(h) && |block| == Expected(h)
  {
    match h
    case VncChallenge(_) => |Handle(k, h, block).wrote| == 16
    case DHCert(_, _, modulus) => |Handle(k, h, block).wrote| == ARD_CREDENTIALS_LEN + |modulus|
    case _ => true
  }

  /** As `Follows`, and the grammar learns the version at the greeting and the geometry at the init. */
  predicate StaysTogether(k: Secrets, h: Armed, s: State, block: Data)
    requires Active(h) && |block| == Expected(h)
    requires Sound(s.phase) && Waiting(s.phase).Some? && |block| == Need(s.phase)
  {
    var d := Drain(false, Next(false, s, block), C2S, Handle(k, h, block).wrote);
    && Follows(k, h, s, block)
    && d.state.facts.negotiated == (if h == Hello then Negotiate(block) else s.facts.negotiated)
    && (if h == Init then d.state.facts.geometry.Some? else d.state.facts.geometry == s.facts.geometry)
  }

  lemma {:induction false} NegotiableIsGreeting(block: Data)
    requires |block| == 12 && Negotiate(block).Some?
    ensures IsGreeting(block)
  {
  }

  lemma {:induction false} GreetingStep(k: Secrets, s: State, block: Data)
    requires s.phase == Greeting && |block| == 12 && Negotiate(block).Some?
    ensures StaysTogether(k, Hello, s, block)
  {
    hide Drain, ParseVersion, GreetingText, Negotiate, Rank;
    ReplyReadsBack(Negotiate(block).value);
    NegotiableIsGreeting(block);
    DrainOne(false, Next(false, s, block), C2S, Reply(Negotiate(block).value));
  }

  lemma {:induction false} OfferStep(k: Secrets, s: State, v: Version, block: Data)
    requires s.phase == TypeList(v, |block|) && 0 < |block| < 256 && Preferred(block).Some?
    ensures StaysTogether(k, SecurityTypes(v, |block|), s, block)
  {
    hide Drain, Rank, Negotiate;
    var t, sectype := Next(false, s, block), Preferred(block).value;
    var choice: Data, flag: Data := [sectype], [SharedFlag(k)];
    ChoiceStep(t, v, sectype);
    var u := Next(false, t, choice);
    if sectype == NONE && !v.AtLeast(3, 8) {
      DrainStep(false, t, C2S, choice, flag);
      DrainOne(false, u, C2S, flag);
      assert Handle(k, SecurityTypes(v, |block|), block).wrote == choice + flag;
    } else {
      DrainOne(false, t, C2S, choice);
    }
  }

  lemma {:induction false} SchemeStep(k: Secrets, s: State, v: Version, block: Data)
    requires s.phase == DirectType(v) && !v.AtLeast(3, 7)
    requires |block| == 4 && U32(block) in {NONE, VNC_AUTHENTICATION}
    ensures StaysTogether(k, AuthScheme(v), s, block)
  {
    hide Drain, Rank, Negotiate;
    var t := Next(false, s, block);
    if U32(block) == NONE {
      DrainOne(false, t, C2S, [SharedFlag(k)]);
      assert Handle(k, AuthScheme(v), block).wrote == [SharedFlag(k)];
    } else {
      DrainIdle(false, t, C2S, []);
    }
  }

  /** ARD is followed exactly when credentials and key together have the length the scrubber assumes. */
  lemma {:induction false} CertStep(k: Secrets, s: State, v: Version, generator: Data, modulus: Data, block: Data)
    requires s.phase == ArdServerKey(v, |modulus|) && |block| == |modulus|
    ensures Answers(k, DHCert(v, generator, modulus), block) ==>
              StaysTogether(k, DHCert(v, generator, modulus), s, block)
    ensures Follows(k, DHCert(v, generator, modulus), s, block) ==> Answers(k, DHCert(v, generator, modulus), block)
  {
    hide Drain, Rank, Negotiate, EncryptArd;
    var h := DHCert(v, generator, modulus);
    var wrote, n := Handle(k, h, block).wrote, |modulus|;
    assert Handle(k, h, block).armed == AuthResult(v) || (wrote == [] && Handle(k, h, block).armed.Crashed?) by {
      EncryptedOrNot(k, v, generator, modulus, block);
    }
    CredentialsTaken(Next(false, s, block), v, n, wrote);
  }

  /** What the scrubber makes of an ARD answer of any length. */
  lemma {:induction false} CredentialsTaken(t: State, v: Version, n: nat, wrote: Data)
    requires t.phase == ArdCredentials(v, n)
    ensures var d := Drain(false, t, C2S, wrote);
            && d.state.facts == t.facts
            && (d.state.phase == SecurityResult(v) <==> ARD_CREDENTIALS_LEN + n <= |wrote|)
            && (d.state.phase != SecurityResult(v) ==> d.state.phase.ArdCredentials? || d.state.phase.ArdClientKey?)
            && (ARD_CREDENTIALS_LEN + n <= |wrote| ==> d.rest == wrote[ARD_CREDENTIALS_LEN + n..])
  {
    hide Drain, Rank;
    if |wrote| < ARD_CREDENTIALS_LEN {
      DrainShort(t, C2S, wrote);
    } else {
      var credentials, key := wrote[..ARD_CREDENTIALS_LEN], wrote[ARD_CREDENTIALS_LEN..];
      SplitAt(wrote, ARD_CREDENTIALS_LEN);
      DrainStep(false, t, C2S, credentials, key);
      var u := Next(false, t, credentials);
      if |key| < n {
        DrainShort(u, C2S, key);
      } else {
        SplitAt(key, n);
        DrainStep(false, u, C2S, key[..n], key[n..]);
        DrainIdle(false, Next(false, u, key[..n]), C2S, key[n..]);
        Slices(wrote, ARD_CREDENTIALS_LEN, n, n);
      }
    }
  }

  lemma {:induction false} EncryptedOrNot(k: Secrets, v: Version, generator: Data, modulus: Data, block: Data)
    ensures var r := EncryptArd(k, v, generator, modulus, block);
            r.armed == AuthResult(v) || (r.wrote == [] && r.armed.Crashed?)
  {
  }

  /** With AES and Diffie-Hellman as they are, that is exactly when username and password have at
      most 64 characters and are ASCII. */
  lemma {:induction false} ArdIsFollowedExactly(
      k: Secrets, s: State, v: Version, generator: Data, modulus: Data, block: Data)
    requires k.Proper() && s.phase == ArdServerKey(v, |modulus|) && |block| == |modulus|
    ensures Follows(k, DHCert(v, generator, modulus), s, block) <==> FitsField(k.username) && FitsField(k.ArdPassword())
    ensures StaysTogether(k, DHCert(v, generator, modulus), s, block) <==>
            FitsField(k.username) && FitsField(k.ArdPassword())
  {
    hide Follows, FitsField, ArdPlaintext;
    CertStep(k, s, v, generator, modulus, block);
    ArdLengthHolds(k.username, k.ArdPassword());
  }

  /** A username of 80 characters, and one of 16 accented letters: the client writes 16 bytes more
      than the scrubber takes, which are left in front of whatever the client says next. */
  lemma {:induction false} LongUsernameIsNotFollowed(
      k: Secrets, s: State, v: Version, generator: Data, modulus: Data, block: Data)
    requires k.Proper() && s.phase == ArdServerKey(v, |modulus|) && |block| == |modulus|
    requires k.username == seq(80, i => 'a') || k.username == seq(16, i => '\U{E9}')
    requires k.ArdPassword() == ""
    ensures var r := Handle(k, DHCert(v, generator, modulus), block);
            && r.armed == AuthResult(v) && |r.wrote| == ARD_CREDENTIALS_LEN + |modulus| + 16
            && Drain(false, Next(false, s, block), C2S, r.wrote).rest == r.wrote[ARD_CREDENTIALS_LEN + |modulus|..]
    ensures !Follows(k, DHCert(v, generator, modulus), s, block)
  {
    hide Drain, Rank, Negotiate, ArdPlaintext;
    ArdLengthFails();
    CredentialsTaken(Next(false, s, block), v, |modulus|, Handle(k, DHCert(v, generator, modulus), block).wrote);
  }

  lemma {:induction false} DrainShort(s: State, d: Direction, buf: Data)
    requires Sound(s.phase) && Awaits(s.phase, d) && |buf| < Need(s.phase)
    ensures Drain(false, s, d, buf) == Drained(s, buf, [])
  {
    hide Next, Recording, Rank;
  }

  lemma {:induction false} ResultStep(k: Secrets, s: State, v: Version, block: Data)
    requires s.phase == SecurityResult(v) && |block| == 4 && U32(block) == 0
    ensures StaysTogether(k, AuthResult(v), s, block)
  {
    hide Drain, Rank, Negotiate;
    DrainOne(false, Next(false, s, block), C2S, [SharedFlag(k)]);
    assert Handle(k, AuthResult(v), block).wrote == [SharedFlag(k)];
  }

  lemma {:induction false} ChallengeStep(k: Secrets, s: State, v: Version, block: Data)
    requires s.phase == Challenge(v) && |block| == 16
    ensures Answers(k, VncChallenge(v), block) ==> StaysTogether(k, VncChallenge(v), s, block)
    ensures Follows(k, VncChallenge(v), s, block) ==> Answers(k, VncChallenge(v), block)
  {
    hide Drain, Rank, Negotiate;
    var r, t := Handle(k, VncChallenge(v), block), Next(false, s, block);
    var response := r.wrote;
    assert r.armed == AuthResult(v) || (response == [] && r.armed.Crashed?);
    if |response| < 16 {
      DrainShort(t, C2S, response);
    } else {
      SplitAt(response, 16);
      DrainStep(false, t, C2S, response[..16], response[16..]);
      DrainIdle(false, Next(false, t, response[..16]), C2S, response[16..]);
    }
  }

  /** Handlers that write nothing leave the grammar waiting for the server again. */
  lemma {:induction false} SilentStep(k: Secrets, h: Armed, s: State, block: Data)
    requires h.NumberSecurityTypes? || h.DHHead? || h.DHKey? || h.Init? || h.Name?
    requires Together(h, s.phase) && s.phase != Done && |block| == Expected(h)
    requires !Quits(h, Handle(k, h, block))
    ensures Sound(s.phase) && |block| == Need(s.phase) && StaysTogether(k, h, s, block)
  {
    hide Drain, Rank, Negotiate;
    DrainIdle(false, Next(false, s, block), C2S, []);
  }

  /** For every handler, every position together with it and every block, unless the client gives
      up: the two stay together exactly when the answer has the length the grammar expects. */
  lemma {:induction false} LockstepStep(k: Secrets, h: Armed, s: State, block: Data)
    requires Together(h, s.phase) && s.phase != Done
    requires |block| == Expected(h)
    requires !Quits(h, Handle(k, h, block))
    ensures Sound(s.phase) && Waiting(s.phase) == Some(Want(S2C, |block|))
    ensures Answers(k, h, block) ==> StaysTogether(k, h, s, block)
    ensures Follows(k, h, s, block) ==> Answers(k, h, block)
  {
    hide StaysTogether, Follows, Next, Negotiate, Rank;
    SameBoundary(h, s.phase);
    match h {
      case Hello => GreetingStep(k, s, block);
      case SecurityTypes(v, _) => OfferStep(k, s, v, block);
      case AuthScheme(v) => SchemeStep(k, s, v, block);
      case VncChallenge(v) => ChallengeStep(k, s, v, block);
      case DHCert(v, generator, modulus) => CertStep(k, s, v, generator, modulus, block);
      case AuthResult(v) => ResultStep(k, s, v, block);
      case _ => SilentStep(k, h, s, block);
    }
  }

  function SharedFlag(k: Secrets): Byte { if k.shared then 1 else 0 }

  lemma {:induction false} ChoiceStep(t: State, v: Version, sectype: nat)
    requires t.phase == TypeChoice(v) && sectype in {NONE, VNC_AUTHENTICATION, DIFFIE_HELLMAN}
    ensures Next(false, t, [sectype]) == EnterAuth(false, v, sectype, t.facts)
    ensures Settled(Next(false, t, [sectype]))
  {
  }

  // ----- whole handshakes -----

  /** The server's bytes take this client all the way to connection-made, no handler giving up. */
  predicate LeadsToConnection(k: Secrets, h: Armed, server: Data)
    decreases Height(h)
  {
    h.Connected? ||
    (Active(h) && Expected(h) <= |server| && !Quits(h, Handle(k, h, server[..Expected(h)])) &&
     LeadsToConnection(k, Handle(k, h, server[..Expected(h)]).armed, server[Expected(h)..]))
  }

  /** Every answer on the way, as long as handlers move on, has the length the grammar expects. */
  predicate WellAnswered(k: Secrets, h: Armed, server: Data)
    decreases Height(h)
  {
    Active(h) && Expected(h) <= |server| ==>
      && Answers(k, h, server[..Expected(h)])
      && var next := Handle(k, h, server[..Expected(h)]).armed;
         next != h ==> WellAnswered(k, next, server[Expected(h)..])
  }

  datatype Exchange = VncExchange | ArdExchange

  /** The handler that writes the answer of an exchange. */
  predicate Poses(h: Armed, x: Exchange) {
    if x == VncExchange then h.VncChallenge? else h.DHCert?
  }

  /** The server's bytes bring this client to answer a VNC challenge, or an ARD certificate. */
  predicate Meets(k: Secrets, h: Armed, server: Data, x: Exchange)
    decreases Height(h)
  {
    && Active(h) && Expected(h) <= |server|
    && (Poses(h, x) ||
        var next := Handle(k, h, server[..Expected(h)]).armed;
        next != h && Meets(k, next, server[Expected(h)..], x))
  }

  /** What the exchanges a run meets demand of the client. */
  predicate Prepared(k: Secrets, h: Armed, server: Data) {
    && (Meets(k, h, server, VncExchange) ==> k.CanAnswer())
    && (Meets(k, h, server, ArdExchange) ==> FitsField(k.username) && FitsField(k.ArdPassword()))
  }

  /** With the cryptography as it is, two things go wrong: a challenge for which there is no password,
      or none that makes a key, and ARD credentials that do not fit their fields. */
  lemma {:induction false} WellAnsweredExactly(k: Secrets, h: Armed, server: Data)
    requires k.Proper()
    ensures WellAnswered(k, h, server) <==> Prepared(k, h, server)
    decreases Height(h)
  {
    hide Height, FitsField, Handle, Answers, Secrets.CanAnswer;
    if Active(h) && Expected(h) <= |server| {
      AnswersExactly(k, h, server[..Expected(h)]);
      var next := Handle(k, h, server[..Expected(h)]).armed;
      if next != h {
        WellAnsweredExactly(k, next, server[Expected(h)..]);
      }
    }
  }

  lemma {:induction false} AnswersExactly(k: Secrets, h: Armed, block: Data)
    requires k.Proper() && Active(h) && |block| == Expected(h)
    ensures Answers(k, h, block) <==>
            && (h.VncChallenge? ==> k.CanAnswer())
            && (h.DHCert? ==> FitsField(k.username) && FitsField(k.ArdPassword()))
  {
    hide ArdPlaintext, FitsField;
    ArdLengthHolds(k.username, k.ArdPassword());
  }

  /** How many server bytes the handshake takes: through the end of the server name. */
  function HandshakeLength(k: Secrets, h: Armed, server: Data): (n: nat)
    requires LeadsToConnection(k, h, server)
    ensures n <= |server|
    decreases Height(h)
  {
    if h.Connected? then 0
    else
      var n := Expected(h);
      n + HandshakeLength(k, Handle(k, h, server[..n]).armed, server[n..])
  }

  /** The grammar's position after each side has been followed to the end of one block. */
  function FollowBlock(k: Secrets, h: Armed, s: State, block: Data): State
    requires Active(h) && |block| == Expected(h)
    requires Awaits(s.phase, S2C) && Sound(s.phase) && |block| == Need(s.phase)
  {
    Drain(false, Next(false, s, block), C2S, Handle(k, h, block).wrote).state
  }

  /** A client that connects keeps the grammar beside it at every block of the way, and the
      grammar finishes exactly when the server name ends. */
  predicate BesideAllTheWay(k: Secrets, h: Armed, s: State, server: Data)
    requires LeadsToConnection(k, h, server)
    decreases Height(h)
  {
    Together(h, s.phase) &&
    if s.phase == Done then HandshakeLength(k, h, server) == 0
    else
      && Active(h) && Waiting(s.phase) == Some(Want(S2C, Expected(h))) && Sound(s.phase)
      && var block := server[..Expected(h)];
         var r := Handle(k, h, block);
         && Drain(false, Next(false, s, block), C2S, r.wrote).rest == []
         && BesideAllTheWay(k, r.armed, FollowBlock(k, h, s, block), server[Expected(h)..])
  }

  lemma {:induction false} LockstepAllTheWay(k: Secrets, h: Armed, s: State, server: Data)
    requires Together(h, s.phase) && LeadsToConnection(k, h, server)
    ensures BesideAllTheWay(k, h, s, server) <==> WellAnswered(k, h, server)
    decreases Height(h)
  {
    hide Handle, Next, Height, Drain, Together, Answers;
    SameBoundary(h, s.phase);
    if s.phase == Done {
      NothingLeft(k, h, server);
    } else {
      var n := Expected(h);
      var r := Handle(k, h, server[..n]);
      LockstepStep(k, h, s, server[..n]);
      if Answers(k, h, server[..n]) {
        LockstepAllTheWay(k, r.armed, FollowBlock(k, h, s, server[..n]), server[n..]);
      } else {
        ApartAtOnce(k, h, s, server);
      }
    }
  }

  lemma {:induction false} ApartAtOnce(k: Secrets, h: Armed, s: State, server: Data)
    requires LeadsToConnection(k, h, server) && Active(h) && s.phase != Done
    requires Waiting(s.phase) == Some(Want(S2C, Expected(h))) && Sound(s.phase)
    requires !Follows(k, h, s, server[..Expected(h)])
    ensures !BesideAllTheWay(k, h, s, server)
  {
    hide Handle, Next, Height, Drain;
    var n := Expected(h);
    var r, t := Handle(k, h, server[..n]), FollowBlock(k, h, s, server[..n]);
    if BesideAllTheWay(k, h, s, server) {
      assert BesideAllTheWay(k, r.armed, t, server[n..]);
      BesideIsTogether(k, r.armed, t, server[n..]);
    }
  }

  lemma {:induction false} BesideIsTogether(k: Secrets, h: Armed, s: State, server: Data)
    requires LeadsToConnection(k, h, server) && BesideAllTheWay(k, h, s, server)
    ensures Together(h, s.phase)
  {
    hide Handle, Together;
  }

  lemma {:induction false} NothingLeft(k: Secrets, h: Armed, server: Data)
    requires h == Connected || h == Name(0)
    requires LeadsToConnection(k, h, server)
    ensures HandshakeLength(k, h, server) == 0 && WellAnswered(k, h, server)
  {
  }

  /** From the greeting on: any client, any server it can connect to. */
  lemma {:induction false} LockstepFromTheStart(k: Secrets, server: Data)
    requires LeadsToConnection(k, Hello, server)
    ensures BesideAllTheWay(k, Hello, Start, server) <==> WellAnswered(k, Hello, server)
    ensures k.Proper() ==>
              (BesideAllTheWay(k, Hello, Start, server) <==>
               Prepared(k, Hello, server))
  {
    hide LeadsToConnection, BesideAllTheWay, WellAnswered, Prepared;
    LockstepAllTheWay(k, Hello, Start, server);
    if k.Proper() {
      WellAnsweredExactly(k, Hello, server);
    }
  }
}
