/**
  What the client says in a handshake that succeeds (vncdotool/rfb.py), word for word: the other
  half of the exchange the capture side's `Script` lays out.
 */
module Dialogue {
  import opened Bytes
  import opened Grammar
  import opened ClientHandshake

  /** How a server asks a client to prove itself. */
  datatype Demand =
    | Nothing
    | Challenge(challenge: Data)
    | Certificate(generator: Data, modulus: Data, serverKey: Data)
  {
    predicate Valid() {
      match this
      case Nothing => true
      case Challenge(challenge) => |challenge| == 16
      case Certificate(generator, modulus, serverKey) =>
        |generator| == 2 && |modulus| == |serverKey| < 0x1_0000
    }

    function Sectype(): nat {
      match this
      case Nothing => NONE
      case Challenge(_) => VNC_AUTHENTICATION
      case Certificate(_, _, _) => DIFFIE_HELLMAN
    }

    function Print(): Data
      requires Valid()
    {
      match this
      case Nothing => []
      case Challenge(challenge) => challenge
      case Certificate(generator, modulus, serverKey) => (generator + PutU16(|modulus|)) + (modulus + serverKey)
    }
  }

  /** The password of the configuration; only if there is none is the user asked. */
  function Password(k: Secrets): string {
    match k.password
    case Some(given) => given
    case None => k.typed
  }

  /** The client has what the demand asks for. */
  predicate CanMeet(k: Secrets, d: Demand) {
    match d
    case Nothing => true
    case Challenge(_) => k.CanAnswer()
    case Certificate(_, _, _) => |ArdPlaintext(k.username, Password(k))| % AES_BLOCK == 0
  }

  /** The answer: the challenge under the password, or the encrypted credentials and a public key. */
  function Answer(k: Secrets, d: Demand): Data
    requires CanMeet(k, d)
  {
    match d
    case Nothing => []
    case Challenge(challenge) => k.vncResponse(VncKey(k.password.value), challenge)
    case Certificate(generator, modulus, serverKey) =>
      k.encrypt(generator, modulus, serverKey, ArdPlaintext(k.username, Password(k)))
      + k.ardPublicKey(generator, modulus, serverKey)
  }

  /** The server's side of a handshake. */
  datatype Server = Server(greeting: Data, types: Data, demand: Demand, init: Data, name: Data) {
    predicate Valid() {
      && |greeting| == 12 && Negotiate(greeting).Some?
      && 0 < |types| < 256 && demand.Valid()
      && (if V().AtLeast(3, 7) then Preferred(types) == Some(demand.Sectype()) else !demand.Certificate?)
      && |init| == 24 && |name| == U32(init[20..24])
    }

    function V(): Version
      requires |greeting| == 12 && Negotiate(greeting).Some?
    {
      Negotiate(greeting).value
    }

    function Offer(): Data
      requires Valid()
    {
      if V().AtLeast(3, 7) then [|types|] + types else PutU32(demand.Sectype())
    }

    /** SecurityResult, in every case but `none` before 3.8. */
    function Result(): Data
      requires Valid()
    {
      if !V().AtLeast(3, 8) && demand.Nothing? then [] else PutU32(0)
    }

    function Print(): Data
      requires Valid()
    {
      greeting + (Offer() + (demand.Print() + (Result() + (init + name))))
    }
  }

  /** And the client's: its version, its choice if it has one, its answer, and the shared flag. */
  function Replies(k: Secrets, s: Server): Data
    requires s.Valid() && CanMeet(k, s.demand)
  {
    var choice: Data := if s.V().AtLeast(3, 7) then [s.demand.Sectype()] else [];
    Reply(s.V()) + (choice + (Answer(k, s.demand) + [if k.shared then 1 else 0]))
  }

  // ----- word for word -----

  lemma {:induction false} InitTalk(k: Secrets, init: Data, name: Data, more: Data)
    requires |init| == 24 && |name| == U32(init[20..24])
    ensures Converse(k, Init, init + (name + more)) == Conversation(Connected, more, [], [])
  {
    hide Converse, Then;
    OneBlock(k, Name(|name|), name, more);
    OneBlock(k, Init, init, name + more);
    AtRest(k, more);
    ThenNothing(Conversation(Connected, more, [], []));
  }

  lemma {:induction false} AtRest(k: Secrets, more: Data)
    ensures Converse(k, Connected, more) == Conversation(Connected, more, [], [])
  {
  }

  /** From the result on: the shared flag, and nothing else. */
  lemma {:induction false} ResultTalk(k: Secrets, v: Version, init: Data, name: Data, more: Data)
    requires |init| == 24 && |name| == U32(init[20..24])
    ensures Converse(k, AuthResult(v), PutU32(0) + (init + (name + more))) ==
            Conversation(Connected, more, [if k.shared then 1 else 0], [])
  {
    hide Converse, Then;
    OneBlock(k, AuthResult(v), PutU32(0), init + (name + more));
    assert Handle(k, AuthResult(v), PutU32(0)).wrote == [if k.shared then 1 else 0];
    InitTalk(k, init, name, more);
    ThenOne([if k.shared then 1 else 0], more);
  }

  lemma {:induction false} ThenOne(wrote: Data, more: Data)
    ensures Then(wrote, [], Conversation(Connected, more, [], [])) == Conversation(Connected, more, wrote, [])
  {
    assert wrote + [] == wrote;
  }

  lemma {:induction false} ThenAnother(w: Data, more: Data, v: Data)
    ensures Then(w, [], Conversation(Connected, more, v, [])) == Conversation(Connected, more, w + v, [])
  {
  }

  lemma {:induction false} ChallengeTalk(k: Secrets, v: Version, challenge: Data, rest: Data, more: Data, said: Data)
    requires |challenge| == 16 && k.CanAnswer()
    requires Converse(k, AuthResult(v), rest) == Conversation(Connected, more, said, [])
    ensures Converse(k, VncChallenge(v), challenge + rest) ==
            Conversation(Connected, more, k.vncResponse(VncKey(k.password.value), challenge) + said, [])
  {
    hide Converse, Then;
    OneBlock(k, VncChallenge(v), challenge, rest);
    ThenAnother(k.vncResponse(VncKey(k.password.value), challenge), more, said);
  }

  lemma {:induction false} CertificateTalk(k: Secrets, v: Version, d: Demand, rest: Data, more: Data, said: Data)
    requires d.Certificate? && d.Valid() && CanMeet(k, d)
    requires Converse(k, AuthResult(v), rest) == Conversation(Connected, more, said, [])
    ensures Converse(k, DHHead(v), d.Print() + rest) == Conversation(Connected, more, Answer(k, d) + said, [])
  {
    hide Converse, Then, U16, PutU16, ArdPlaintext;
    var head := d.generator + PutU16(|d.modulus|);
    assert head[..2] == d.generator && head[2..4] == PutU16(|d.modulus|);
    var h1, h2 := DHKey(v, d.generator, |d.modulus|), DHCert(v, d.generator, d.modulus);
    Associative(head, d.modulus + d.serverKey, rest);
    Associative(d.modulus, d.serverKey, rest);
    OneBlock(k, DHHead(v), head, d.modulus + (d.serverKey + rest));
    OneBlock(k, h1, d.modulus, d.serverKey + rest);
    OneBlock(k, h2, d.serverKey, rest);
    ThenAnother(Answer(k, d), more, said);
    var c := Conversation(Connected, more, Answer(k, d) + said, []);
    ThenNothing(c);
  }

  /** From the handler a type leads to: the answer, and after it the shared flag. */
  lemma {:induction false} AuthTalk(k: Secrets, s: Server, more: Data)
    requires s.Valid() && CanMeet(k, s.demand) && (s.demand.Nothing? ==> s.V().AtLeast(3, 8))
    ensures var h := match s.demand
                     case Nothing => AuthResult(s.V())
                     case Challenge(_) => VncChallenge(s.V())
                     case Certificate(_, _, _) => DHHead(s.V());
            Converse(k, h, s.demand.Print() + (s.Result() + (s.init + (s.name + more)))) ==
            Conversation(Connected, more, Answer(k, s.demand) + [if k.shared then 1 else 0], [])
  {
    hide Converse, Negotiate, ArdPlaintext, U32, PutU32, Preferred;
    var rest, flag: Data := PutU32(0) + (s.init + (s.name + more)), [if k.shared then 1 else 0];
    ResultTalk(k, s.V(), s.init, s.name, more);
    match s.demand {
      case Nothing => assert [] + rest == rest && [] + flag == flag;
      case Challenge(challenge) => ChallengeTalk(k, s.V(), challenge, rest, more, flag);
      case Certificate(_, _, _) => CertificateTalk(k, s.V(), s.demand, rest, more, flag);
    }
  }

  /** From the offer on. */
  lemma {:induction false} OfferTalk(k: Secrets, s: Server, more: Data)
    requires s.Valid() && CanMeet(k, s.demand)
    ensures var h := if s.V().AtLeast(3, 7) then NumberSecurityTypes(s.V()) else AuthScheme(s.V());
            var choice: Data := if s.V().AtLeast(3, 7) then [s.demand.Sectype()] else [];
            Converse(k, h, s.Offer() + (s.demand.Print() + (s.Result() + (s.init + (s.name + more))))) ==
            Conversation(Connected, more, choice + (Answer(k, s.demand) + [if k.shared then 1 else 0]), [])
  {
    hide Converse, Then, Negotiate, ArdPlaintext, PutU32, Preferred, Demand.Print, Answer;
    var v, demand := s.V(), s.demand;
    var tail := s.init + (s.name + more);
    var rest := demand.Print() + (s.Result() + tail);
    var flag: Data, choice: Data := [if k.shared then 1 else 0], [demand.Sectype()];
    var plain := demand.Nothing? && !v.AtLeast(3, 8);
    NothingSaid(k, demand);
    if plain {
      InitTalk(k, s.init, s.name, more);
      assert rest == tail;
    } else {
      AuthTalk(k, s, more);
    }
    if v.AtLeast(3, 7) {
      var count: Data := [|s.types|];
      Associative(count, s.types, rest);
      OneBlock(k, NumberSecurityTypes(v), count, s.types + rest);
      OneBlock(k, SecurityTypes(v, |s.types|), s.types, rest);
      if plain {
        ThenOne(choice + flag, more);
        assert choice + ([] + flag) == choice + flag;
      } else {
        ThenAnother(choice, more, Answer(k, demand) + flag);
      }
      ThenNothing(Converse(k, SecurityTypes(v, |s.types|), s.types + rest));
    } else {
      OneBlock(k, AuthScheme(v), PutU32(demand.Sectype()), rest);
      if plain {
        ThenOne(flag, more);
        assert [] + ([] + flag) == flag && [] + flag == flag;
      } else {
        ThenNothing(Conversation(Connected, more, Answer(k, demand) + flag, []));
        assert [] + (Answer(k, demand) + flag) == Answer(k, demand) + flag;
      }
    }
  }

  lemma {:induction false} NothingSaid(k: Secrets, d: Demand)
    requires d.Valid()
    ensures d.Nothing? ==> d.Print() == [] && CanMeet(k, d) && Answer(k, d) == []
  {
    hide ArdPlaintext;
  }

  /** To any server it can satisfy, at any version and with any authentication, the client says
      exactly its lines, complains of nothing, ends connected, and leaves what follows unread. */
  lemma {:induction false} ClientSaysItsLines(k: Secrets, s: Server, more: Data)
    requires s.Valid() && CanMeet(k, s.demand)
    ensures After(k, s.Print() + more) == Conversation(Connected, more, Replies(k, s), [])
  {
    hide Converse, Then, Negotiate, ArdPlaintext, Preferred, Demand.Print, Answer, Server.Offer, Server.Result, Reply;
    hide StartsGreeting, Judge, CanMeet;
    var rest := s.Offer() + (s.demand.Print() + (s.Result() + (s.init + (s.name + more))));
    Regroup(s.greeting, s.Offer(), s.demand.Print(), s.Result(), s.init, s.name, more);
    OfferTalk(k, s, more);
    assert (s.greeting + rest)[..12] == s.greeting;
    AcceptedGreeting(s.greeting + rest, |s.greeting + rest|);
    assert (s.greeting + rest)[..|s.greeting + rest|] == s.greeting + rest;
    NegotiableReply(k, s.greeting);
    OneBlock(k, Hello, s.greeting, rest);
    var choice: Data := if s.V().AtLeast(3, 7) then [s.demand.Sectype()] else [];
    ThenAnother(Reply(s.V()), more, choice + (Answer(k, s.demand) + [if k.shared then 1 else 0]));
  }

  lemma {:induction false} NegotiableReply(k: Secrets, greeting: Data)
    requires |greeting| == 12 && Negotiate(greeting).Some?
    ensures var v := Negotiate(greeting).value;
            Handle(k, Hello, greeting) ==
            Handled(if v.AtLeast(3, 7) then NumberSecurityTypes(v) else AuthScheme(v), Reply(v), [])
  {
  }

  lemma {:induction false} Regroup(a: Data, b: Data, c: Data, d: Data, e: Data, f: Data, g: Data)
    ensures (a + (b + (c + (d + (e + f))))) + g == a + (b + (c + (d + (e + (f + g)))))
  {
    Associative(e, f, g);
    Associative(d, e + f, g);
    Associative(c, d + (e + f), g);
    Associative(b, c + (d + (e + f)), g);
    Associative(a, b + (c + (d + (e + f))), g);
  }
}
