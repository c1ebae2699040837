/**
  `RFBClient` talking to `ReplayProtocol` over two FIFO byte channels that cut the bytes
  anywhere: the conversation never deadlocks, reaches connection-made with exactly the
  recorded handshake received, and goes on once the client asks for an update
  (vncdotool/replay.py, vncdotool/rfb.py, vncdotool/capture.py).
 */
module Composed {
  import opened Bytes
  import opened Grammar
  import opened Scrubber
  import opened Segmentation
  import opened Rewrite
  import opened ClientMessages
  import opened Replay
  import opened ClientHandshake
  import opened Lockstep
  import Idempotence
  import Runs
  import Session
  import Parsing
  import ServerMessages

  /** The recording takes this client to connection-made, was made at the version it negotiates, and
      any challenge in it is answered at the length the grammar expects. */
  predicate Playable(k: Secrets, a: Capture) {
    && LeadsToConnection(k, Hello, a.s2c)
    && WellAnswered(k, Hello, a.s2c)
    && 12 <= |a.s2c|
    && (a.negotiated.None? || a.negotiated == Negotiate(a.s2c[..12]))
  }

  /** The end of the server name in the recording. */
  function NameEnd(k: Secrets, a: Capture): (n: nat)
    requires Playable(k, a)
    ensures n <= |a.s2c|
  {
    HandshakeLength(k, Hello, a.s2c)
  }

  // ----- the meeting point -----

  /** Client bytes that the grammar follows completely take the pacing along with it. */
  lemma {:induction false} PaceDrains(a: Capture, client: Data, t: State, pos: nat, taken: nat, w: Data)
    requires Sound(t.phase) && pos <= |a.s2c| && taken + |w| <= |client| && client[taken..taken + |w|] == w
    requires t.facts.negotiated.Some? && Drain(false, t, C2S, w).rest == []
    ensures Pace(a, client, t, pos, taken) == Pace(a, client, Drain(false, t, C2S, w).state, pos, taken + |w|)
    decreases Rank(t.phase)
  {
    hide Next, Pace, Rank, Recording;
    if Awaits(t.phase, C2S) && Need(t.phase) <= |w| {
      var n := Need(t.phase);
      assert client[taken..taken + n] == w[..n];
      assert client[taken + n..taken + |w|] == w[n..];
      PaceOnClient(a, client, t, pos, taken);
      PaceDrains(a, client, Next(false, t, w[..n]), pos, taken + n, w[n..]);
    }
  }

  /** The version reply passes the replay server's check. */
  lemma {:induction false} PaceGreets(k: Secrets, a: Capture, client: Data)
    requires Playable(k, a)
    requires var r := Handle(k, Hello, a.s2c[..12]); !Quits(Hello, r) && r.wrote <= client
    ensures var t := FollowBlock(k, Hello, Start, a.s2c[..12]);
            && Sound(t.phase) && |Handle(k, Hello, a.s2c[..12]).wrote| == 12
            && t.facts.negotiated.Some?
            && PaceAll(a, client) == Pace(a, client, t, 12, 12)
  {
    hide Pace, Drain, ParseVersion, GreetingText, Negotiate, Rank, IsGreeting, LeadsToConnection, WellAnswered;
    var block := a.s2c[..12];
    var v, s := Negotiate(block).value, Next(false, Start, block);
    ReplyReadsBack(v);
    assert a.s2c[0..0 + 12] == block && client[0..0 + 12] == Reply(v);
    PaceOnServer(a, client, Start, 0, 0);
    PaceOnClient(a, client, s, 12, 0);
    DrainOne(false, s, C2S, Reply(v));
  }

  /** One server block and the client's answer to it, on the server's side. */
  lemma {:induction false} PaceFollows(k: Secrets, a: Capture, client: Data, h: Armed, s: State, pos: nat, taken: nat,
                                       block: Data, wrote: Data, t: State)
    requires Together(h, s.phase) && s.facts.negotiated.Some? && h != Hello
    requires Active(h) && Sound(s.phase) && Waiting(s.phase) == Some(Want(S2C, |block|)) && |block| == Expected(h)
    requires pos + |block| <= |a.s2c| && a.s2c[pos..pos + |block|] == block
    requires taken + |wrote| <= |client| && client[taken..taken + |wrote|] == wrote
    requires !Quits(h, Handle(k, h, block)) && Answers(k, h, block) && wrote == Handle(k, h, block).wrote
    requires t == FollowBlock(k, h, s, block)
    ensures Sound(t.phase) && t.facts.negotiated.Some?
    ensures Pace(a, client, s, pos, taken) == Pace(a, client, t, pos + |block|, taken + |wrote|)
  {
    hide Pace, Drain, Next, Handle, Negotiate, Rank, Together, Answers;
    LockstepStep(k, h, s, block);
    PaceOnServer(a, client, s, pos, taken);
    NextKeepsVersion(s, block);
    PaceDrains(a, client, Next(false, s, block), pos + |block|, taken, wrote);
  }

  /** The client's side of the same block. */
  lemma {:induction false} ConverseFollows(k: Secrets, h: Armed, server: Data, pos: nat, end: nat)
    requires Active(h) && pos + Expected(h) <= end <= |server|
    requires !Stuck(h) && (h == Hello ==> Negotiate(server[pos..pos + 12]).Some?)
    ensures var n := Expected(h);
            var r := Handle(k, h, server[pos..pos + n]);
            var c := Converse(k, r.armed, server[pos + n..end]);
            var d := Converse(k, h, server[pos..end]);
            d.armed == c.armed && d.packet == c.packet && d.wrote == r.wrote + c.wrote
  {
    hide Handle, Height, Judge, Negotiate, Stuck;
    Middle(server, pos, Expected(h), end);
    if h == Hello {
      var packet := server[pos..end];
      AcceptedGreeting(packet, |packet|);
      assert packet[..|packet|] == packet;
    }
  }

  /** Both channels are empty; the client has handled `pos` bytes and stands at `h`, the server
      has followed the same bytes and `taken` of the client's, and stands at `s`. */
  ghost predicate Reached(k: Secrets, a: Capture, told: Data, end: nat, app: Data,
                          h: Armed, s: State, pos: nat, taken: nat)
  {
    && Together(h, s.phase) && Sound(s.phase) && s.facts.negotiated.Some? && h != Hello
    && (s.facts.geometry.Some? <==> (h.Name? || h.Connected?))
    && pos <= end <= |a.s2c| && taken <= |told|
    && LeadsToConnection(k, h, a.s2c[pos..]) && WellAnswered(k, h, a.s2c[pos..])
    && Pace(a, told, s, pos, taken) == PaceAll(a, told)
    && end == ServedTo(a, told).count
    && told[taken..] == Converse(k, h, a.s2c[pos..end]).wrote + app
  }

  lemma {:induction false} MeetStep(k: Secrets, a: Capture, told: Data, end: nat, app: Data,
                                    h: Armed, s: State, pos: nat, taken: nat) returns (r: Handled, t: State)
    requires Reached(k, a, told, end, app, h, s, pos, taken) && s.phase != Done
    ensures Active(h) && pos + Expected(h) <= |a.s2c| && r == Handle(k, h, a.s2c[pos..pos + Expected(h)])
    ensures Height(r.armed) < Height(h)
    ensures Reached(k, a, told, end, app, r.armed, t, pos + Expected(h), taken + |r.wrote|)
    ensures HandshakeLength(k, h, a.s2c[pos..]) ==
            Expected(h) + HandshakeLength(k, r.armed, a.s2c[pos + Expected(h)..])
    ensures Converse(k, h, a.s2c[pos..end]).armed == Converse(k, r.armed, a.s2c[pos + Expected(h)..end]).armed
  {
    hide Pace, Handle, Height, Drain, Next, Negotiate, Rank, Together, ServedTo, Converse, Lost, Stuck, FollowBlock;
    hide LeadsToConnection, HandshakeLength, Waiting, Sound, Expected, WellAnswered, Answers;
    SameBoundary(h, s.phase);
    LeadsOnAt(k, h, a.s2c, pos);
    var n := Expected(h);
    var block := a.s2c[pos..pos + n];
    ServedReaches(a, told);
    PaceOnServer(a, told, s, pos, taken);
    ConverseFollows(k, h, a.s2c, pos, end);
    r := Handle(k, h, block);
    AnswerTaken(told, taken, r.wrote, Converse(k, r.armed, a.s2c[pos + n..end]).wrote, app);
    t := FollowBlock(k, h, s, block);
    PaceFollows(k, a, told, h, s, pos, taken, block, r.wrote, t);
    BlockKeeps(k, h, s, block);
  }

  /** What one block keeps between the client and the grammar. */
  lemma {:induction false} BlockKeeps(k: Secrets, h: Armed, s: State, block: Data)
    requires Together(h, s.phase) && s.phase != Done && h != Hello && |block| == Expected(h)
    requires !Quits(h, Handle(k, h, block)) && Answers(k, h, block)
    requires s.facts.geometry.Some? <==> (h.Name? || h.Connected?)
    ensures Active(h) && Awaits(s.phase, S2C) && Sound(s.phase) && |block| == Need(s.phase)
    ensures var r, t := Handle(k, h, block), FollowBlock(k, h, s, block);
            && Together(r.armed, t.phase) && r.armed != Hello
            && (t.facts.geometry.Some? <==> (r.armed.Name? || r.armed.Connected?))
  {
    hide Handle, Drain, Next, Negotiate, Rank, Together, Answers, Expected, Lost;
    SameBoundary(h, s.phase);
    LockstepStep(k, h, s, block);
    AfterBlock(k, h, block);
  }

  /** What the client answered is next in what it told, and the rest of its answers follow. */
  lemma {:induction false} AnswerTaken(told: Data, taken: nat, wrote: Data, rest: Data, app: Data)
    requires taken <= |told| && told[taken..] == (wrote + rest) + app
    ensures taken + |wrote| <= |told| && told[taken..taken + |wrote|] == wrote
    ensures told[taken + |wrote|..] == rest + app
  {
    Associative(wrote, rest, app);
    Peel(wrote, rest + app);
    Slices(told, taken, 0, |wrote|);
  }

  lemma {:induction false} LeadsOnAt(k: Secrets, h: Armed, server: Data, pos: nat)
    requires Active(h) && pos <= |server| && LeadsToConnection(k, h, server[pos..]) && WellAnswered(k, h, server[pos..])
    ensures pos + Expected(h) <= |server|
    ensures var r, rest := Handle(k, h, server[pos..pos + Expected(h)]), server[pos + Expected(h)..];
            && LeadsToConnection(k, r.armed, rest) && WellAnswered(k, r.armed, rest)
            && !Quits(h, r) && !Stuck(h) && Answers(k, h, server[pos..pos + Expected(h)])
            && HandshakeLength(k, h, server[pos..]) == Expected(h) + HandshakeLength(k, r.armed, rest)
  {
    hide Handle, Expected, Answers, LeadsToConnection, WellAnswered, HandshakeLength, Quits, Stuck;
    LeadsOn(k, h, server[pos..]);
    Slices(server, pos, 0, Expected(h));
    assert server[pos..][0..Expected(h)] == server[pos..][..Expected(h)];
  }

  /** From any such point the handshake turns out to be complete. */
  lemma {:induction false} Meet(k: Secrets, a: Capture, told: Data, end: nat, app: Data,
                                h: Armed, s: State, pos: nat, taken: nat)
    requires Reached(k, a, told, end, app, h, s, pos, taken)
    ensures var p := PaceAll(a, told);
            && p.outcome == Finished && p.state.facts.geometry.Some?
            && p.pos == pos + HandshakeLength(k, h, a.s2c[pos..])
            && told[p.taken..] == app
            && Converse(k, h, a.s2c[pos..end]).armed == Connected
    decreases Height(h)
  {
    hide Pace, Handle, Height, ServedTo, Converse, HandshakeLength;
    if s.phase == Done {
      SameBoundary(h, s.phase);
      MeetDone(k, a, told, end, app, h, s, pos, taken);
    } else {
      hide Reached;
      var r, t := MeetStep(k, a, told, end, app, h, s, pos, taken);
      Meet(k, a, told, end, app, r.armed, t, pos + Expected(h), taken + |r.wrote|);
    }
  }

  lemma {:induction false} MeetDone(k: Secrets, a: Capture, told: Data, end: nat, app: Data,
                                    h: Armed, s: State, pos: nat, taken: nat)
    requires h == Connected || h == Name(0)
    requires s.phase == Done && s.facts.geometry.Some?
    requires pos <= end <= |a.s2c| && taken <= |told| && LeadsToConnection(k, h, a.s2c[pos..])
    requires Pace(a, told, s, pos, taken) == PaceAll(a, told)
    requires told[taken..] == Converse(k, h, a.s2c[pos..end]).wrote + app
    ensures PaceAll(a, told) == Paced(s, pos, taken, Finished)
    ensures HandshakeLength(k, h, a.s2c[pos..]) == 0
    ensures told[taken..] == app && Converse(k, h, a.s2c[pos..end]).armed == Connected
  {
    hide Pace, Handle, Converse;
    Parked(a, told, s, pos, taken);
    Rest(k, h, a.s2c[pos..end]);
    NothingLeft(k, h, a.s2c[pos..]);
    assert [] + app == app;
  }

  /** Pacing never outruns what has been written. */
  lemma {:induction false} ServedReaches(a: Capture, client: Data)
    ensures PaceAll(a, client).pos <= ServedTo(a, client).count <= |a.s2c|
  {
    hide Pace, Scan;
  }

  lemma {:induction false} LeadsOn(k: Secrets, h: Armed, server: Data)
    requires Active(h) && LeadsToConnection(k, h, server)
    ensures Expected(h) <= |server|
    ensures LeadsToConnection(k, Handle(k, h, server[..Expected(h)]).armed, server[Expected(h)..])
    ensures !Quits(h, Handle(k, h, server[..Expected(h)])) && !Stuck(h)
    ensures WellAnswered(k, h, server) ==>
              && Answers(k, h, server[..Expected(h)])
              && WellAnswered(k, Handle(k, h, server[..Expected(h)]).armed, server[Expected(h)..])
    ensures HandshakeLength(k, h, server) ==
            Expected(h) + HandshakeLength(k, Handle(k, h, server[..Expected(h)]).armed, server[Expected(h)..])
  {
    hide Handle, Expected, Answers, Stuck;
    if Stuck(h) {
      StuckParks(k, h, server[..Expected(h)]);
    }
  }

  lemma {:induction false} StuckParks(k: Secrets, h: Armed, block: Data)
    requires Stuck(h) && |block| == Expected(h)
    ensures Handle(k, h, block).armed == h
  {
  }

  lemma {:induction false} Rest(k: Secrets, h: Armed, server: Data)
    requires h == Connected || h == Name(0)
    ensures Converse(k, h, server).wrote == [] && Converse(k, h, server).armed == Connected
  {
    if h == Name(0) {
      assert Converse(k, Connected, server[0..]) == Conversation(Connected, server[0..], [], []);
    }
  }

  lemma {:induction false} AfterBlock(k: Secrets, h: Armed, block: Data)
    requires Active(h) && |block| == Expected(h)
    ensures !Quits(h, Handle(k, h, block)) ==> Handle(k, h, block).armed != Hello
    ensures h == Hello && !Quits(h, Handle(k, h, block)) ==> Negotiate(block).Some?
    ensures !Quits(h, Handle(k, h, block)) ==>
              ((Handle(k, h, block).armed.Name? || Handle(k, h, block).armed.Connected?) <==> (h.Init? || h.Name?))
  {
  }

  /** Nothing in flight either way: then the client is connected, has received the recording
      exactly through the server name, or all of it if its messages asked for an update. */
  lemma {:induction false} QuietMeansConnected(k: Secrets, a: Capture, heard: Data, told: Data, app: Data)
    requires Playable(k, a)
    requires heard == a.s2c[..ServedTo(a, told).count]
    requires told == After(k, heard).wrote + app
    ensures After(k, heard).armed == Connected
    ensures heard == if Scan(app).found then a.s2c else a.s2c[..NameEnd(k, a)]
    ensures After(k, heard).packet == heard[NameEnd(k, a)..]
  {
    hide Pace, Handle, Height, Drain, Next, Negotiate, Rank, Together, Scan, LeadsToConnection, HandshakeLength;
    hide WellAnswered, Answers;
    var end := ServedTo(a, told).count;
    var block := a.s2c[..12];
    var r := Handle(k, Hello, block);
    assert Together(Hello, Greeting) by { StartTogether(); }
    LeadsOn(k, Hello, a.s2c);
    AfterBlock(k, Hello, block);
    assert a.s2c[0..0 + 12] == block;
    PaceOnServer(a, told, Start, 0, 0);
    ConverseFollows(k, Hello, a.s2c, 0, end);
    assert a.s2c[0..end] == heard;
    var c := Converse(k, r.armed, a.s2c[12..end]);
    Associative(r.wrote, c.wrote, app);
    PaceGreets(k, a, told);
    LockstepStep(k, Hello, Start, block);
    var t := FollowBlock(k, Hello, Start, block);
    Meet(k, a, told, end, app, r.armed, t, 12, 12);
    LeftOver(k, Hello, a.s2c, end);
    assert a.s2c[..end][NameEnd(k, a)..] == a.s2c[NameEnd(k, a)..end];
  }

  /** A client that has heard `m` bytes, past the server name, keeps exactly those past it. */
  lemma {:induction false} LeftOver(k: Secrets, h: Armed, server: Data, m: nat)
    requires LeadsToConnection(k, h, server) && HandshakeLength(k, h, server) <= m <= |server|
    ensures Converse(k, h, server[..m]).packet == server[HandshakeLength(k, h, server)..m]
    decreases Height(h)
  {
    hide Handle, Height, Negotiate, Expected, LeadsToConnection, HandshakeLength, Converse, Judge;
    if Active(h) {
      LeadsOn(k, h, server);
      var n := Expected(h);
      var r := Handle(k, h, server[..n]);
      var used := HandshakeLength(k, r.armed, server[n..]);
      Shifts(server, n, used, m);
      if h == Hello {
        StartTogether();
        AfterBlock(k, h, server[..n]);
      }
      ConverseFollows(k, h, server, 0, m);
      LeftOver(k, r.armed, server[n..], m - n);
    } else {
      AllLeft(k, h, server, m);
    }
  }

  /** On the way to a connection the receive loop always ends. */
  lemma {:induction false} NeverStuck(k: Secrets, h: Armed, server: Data, m: nat)
    requires LeadsToConnection(k, h, server) && m <= |server|
    ensures !Stuck(Converse(k, h, server[..m]).armed)
    decreases Height(h)
  {
    hide Handle, Height, Negotiate, Expected, LeadsToConnection, Judge, Stuck;
    if Active(h) {
      LeadsOn(k, h, server);
      var n := Expected(h);
      var r := Handle(k, h, server[..n]);
      if h == Hello {
        StartTogether();
        AfterBlock(k, h, server[..n]);
        AcceptedGreeting(server, m);
      }
      if n <= m {
        Shifts(server, n, 0, m);
        ConverseFollows(k, h, server, 0, m);
        NeverStuck(k, r.armed, server[n..], m - n);
      }
    } else {
      NotActive(k, h, server);
    }
  }

  lemma {:induction false} NotActive(k: Secrets, h: Armed, server: Data)
    requires LeadsToConnection(k, h, server) && !Active(h)
    ensures h == Connected && !Stuck(h)
  {
  }

  lemma {:induction false} AllLeft(k: Secrets, h: Armed, server: Data, m: nat)
    requires LeadsToConnection(k, h, server) && !Active(h) && m <= |server|
    ensures HandshakeLength(k, h, server) == 0 && Converse(k, h, server[..m]).packet == server[0..m]
  {
    hide Handle, Judge;
  }

  lemma {:induction false} Shifts(s: Data, n: nat, used: nat, m: nat)
    requires n + used <= m <= |s|
    ensures s[0..m] == s[..m] && s[0..0 + n] == s[..n] && s[0 + n..m] == s[n..][..m - n]
    ensures s[n..][used..m - n] == s[n + used..m]
  {
  }

  lemma {:induction false} StartTogether()
    ensures Together(Hello, Greeting) && Expected(Hello) == 12 && Awaits(Greeting, S2C) && Need(Greeting) == 12
  {
  }

  /** A connected client writes nothing on its own. */
  lemma {:induction false} ConnectedIsSilent(k: Secrets, heard: Data, more: Data)
    requires After(k, heard).armed == Connected
    ensures After(k, heard + more).wrote == After(k, heard).wrote
    ensures After(k, heard + more).armed == Connected
    ensures After(k, heard + more).packet == After(k, heard).packet + more
  {
    ConverseResumes(k, Hello, heard, more);
  }

  // ----- the two objects and the channels between them -----

  /** Armed as `_handleServerName` leaves it. */
  const AtMessage := Session.Parser(Session.Message, 0, [], [])

  /** The callbacks a client makes of the session bytes `session`. */
  function CallsOf(cfg: Session.Config, session: Data): seq<Session.Callback> {
    Parsing.Run(cfg, AtMessage, session).trace
  }

  class Link {
    const server: ReplayProtocol
    const client: HandshakeClient
    /** The client's handlers past connection-made, fed what the handshake leaves unread. */
    const session: Parsing.SessionClient
    /** In flight, in FIFO order. */
    var down: Data
    var up: Data
    /** What the application has sent since connection-made. */
    ghost var app: Data

    ghost predicate Valid()
      reads this, server, server.scrubber, client, session
    {
      && server.Valid() && client.Valid() && session.Valid()
      && client.heard + down == server.written
      && server.received + up == client.wrote + app
      && (app != [] ==> client.armed == Connected)
      && session.first == AtMessage
      && session.heard == if client.armed == Connected then client.packet else []
    }

    constructor (k: Secrets, cfg: Session.Config, archive: Capture)
      ensures Valid() && server.capture == archive && client.secrets == k && session.cfg == cfg && app == []
      ensures fresh(server) && fresh(server.scrubber) && fresh(client) && fresh(session)
    {
      hide Converse, ServedTo, Parsing.Run, Pace;
      server := new ReplayProtocol(archive);
      client := new HandshakeClient(k);
      session := new Parsing.SessionClient(cfg);
      new;
      down, up, app := server.written, [], [];
    }

    /** The next `n` bytes reach the client, in one read. */
    method DeliverDown(n: nat)
      requires Valid() && 0 < n <= |down| && !Stuck(client.armed)
      modifies this, client, session
      ensures Valid() && app == old(app) && server.written == old(server.written)
      ensures |client.heard| == old(|client.heard|) + n
    {
      hide Converse, ServedTo, Parsing.Run, Parsing.SessionClient.Valid, ReplayProtocol.Valid;
      ghost var heard, said := client.heard, client.wrote;
      var before, passed := |client.wrote|, if client.armed == Connected then |client.packet| else 0;
      if client.armed == Connected {
        ConnectedIsSilent(client.secrets, client.heard, down[..n]);
      }
      var hung := client.DataReceived(down[..n]);
      SplitAt(down, n);
      Associative(heard, down[..n], down[n..]);
      Extends(said, client.wrote);
      Associative(server.received, up, client.wrote[before..]);
      assert said + [] == said;
      down := down[n..];
      up := up + client.wrote[before..];
      if client.armed == Connected {
        SplitAt(client.packet, passed);
        session.DataReceived(client.packet[passed..]);
      }
    }

    /** The next `n` bytes reach the server, in one read. */
    method DeliverUp(n: nat)
      requires Valid() && 0 < n <= |up|
      modifies this, server, server.scrubber
      ensures Valid() && app == old(app)
      ensures client.heard == old(client.heard) && |up| == old(|up|) - n
      ensures server.received == old(server.received) + old(up)[..n]
    {
      hide Converse, ServedTo, Parsing.Run, Parsing.SessionClient.Valid, ReplayProtocol.Valid;
      ghost var received, written := server.received, server.written;
      var before := |server.written|;
      server.DataReceived(up[..n]);
      SplitAt(up, n);
      Associative(received, up[..n], up[n..]);
      Extends(written, server.written);
      Associative(client.heard, down, server.written[before..]);
      up := up[n..];
      down := down + server.written[before..];
    }

    /** The application sends a message, once connected. */
    method Send(m: ClientMessage)
      requires Valid() && client.armed == Connected && m.Fits()
      modifies this
      ensures Valid() && app == old(app) + m.Print()
      ensures down == old(down)
    {
      hide Converse, ServedTo, ClientMessage.Print, Parsing.Run;
      Associative(server.received, up, m.Print());
      Associative(client.wrote, app, m.Print());
      up := up + m.Print();
      app := app + m.Print();
    }

    method SendAll(ms: seq<ClientMessage>)
      requires Valid() && client.armed == Connected && AllFit(ms)
      modifies this
      ensures Valid() && app == old(app) + PrintAll(ms)
    {
      hide ClientMessage.Print, Valid;
      assert app + [] == app;
      for i := 0 to |ms|
        invariant Valid() && app == old(app) + PrintAll(ms[..i])
      {
        assert ms[..i + 1] == ms[..i] + [ms[i]];
        PrintAllConcat(ms[..i], [ms[i]]);
        Associative(old(app), PrintAll(ms[..i]), ms[i].Print());
        Send(ms[i]);
      }
      assert ms[..|ms|] == ms;
    }

    /** Deliver in any order and in any pieces until nothing is in flight. Every such run is
        finite, and ends with the client connected and its session bytes parsed. */
    method RunToQuiet()
      requires Valid() && Playable(client.secrets, server.capture)
      modifies this, client, session, server, server.scrubber
      ensures Valid() && app == old(app) && down == [] && up == []
      ensures client.armed == Connected
      ensures NameEnd(client.secrets, server.capture) <= |client.heard|
      ensures client.heard == if Scan(app).found then server.capture.s2c
                              else server.capture.s2c[..NameEnd(client.secrets, server.capture)]
      ensures session.trace == CallsOf(session.cfg, client.heard[NameEnd(client.secrets, server.capture)..])
    {
      hide Converse, ServedTo, Scan, Playable, Pace, Parsing.Run, NameEnd;
      while down != [] || up != []
        invariant Valid() && app == old(app)
        decreases |server.capture.s2c| - |client.heard|, |up|
      {
        HeardIsRecorded(client.secrets, server.capture, client.heard, down, server.received);
        if {
          case down != [] =>
            var n :| 0 < n <= |down|;
            DeliverDown(n);
          case up != [] =>
            var n :| 0 < n <= |up|;
            DeliverUp(n);
        }
      }
      assert client.heard == server.written && server.received == client.wrote + app by {
        assert client.heard + [] == client.heard && server.received + [] == server.received;
      }
      QuietMeansConnected(client.secrets, server.capture, client.heard, server.received, app);
    }

    /** A whole replay: connect, say anything that asks for nothing, then ask for an update. Until it
        asks the client holds the recorded handshake and has called nothing back; afterwards it holds
        the whole recording and has called back exactly what the recorded session says. */
    method ReplaySession(chatter: seq<ClientMessage>, request: ClientMessage)
      returns (ghost held: Data, ghost early: seq<Session.Callback>)
      requires Valid() && app == [] && Playable(client.secrets, server.capture)
      requires AllFit(chatter) && forall i :: 0 <= i < |chatter| ==> !chatter[i].UpdateRequest?
      requires request.Fits() && request.UpdateRequest?
      modifies this, client, session, server, server.scrubber
      ensures held == server.capture.s2c[..NameEnd(client.secrets, server.capture)] && early == []
      ensures client.heard == server.capture.s2c
      ensures session.trace == CallsOf(session.cfg, server.capture.s2c[NameEnd(client.secrets, server.capture)..])
    {
      hide Scan, Playable, NameEnd, ClientMessage.Print, Valid, CallsOf;
      ChatterThenRequest(chatter, request);
      RunToQuiet();
      SendAll(chatter);
      RunToQuiet();
      held, early := client.heard, session.trace;
      assert held[NameEnd(client.secrets, server.capture)..] == [];
      NoCallsOfNothing(session.cfg);
      Send(request);
      RunToQuiet();
    }
  }

  /** What a client of a playable archive has heard so far leaves it able to hear more. */
  lemma {:induction false} HeardIsRecorded(k: Secrets, a: Capture, heard: Data, down: Data, told: Data)
    requires Playable(k, a) && heard + down == a.s2c[..ServedTo(a, told).count]
    ensures !Stuck(After(k, heard).armed)
  {
    hide Converse, ServedTo, LeadsToConnection, WellAnswered, Negotiate;
    var m := |heard|;
    assert heard == (heard + down)[..m];
    assert a.s2c[..ServedTo(a, told).count][..m] == a.s2c[..m];
    NeverStuck(k, Hello, a.s2c, m);
  }

  lemma {:induction false} NoCallsOfNothing(cfg: Session.Config)
    ensures CallsOf(cfg, []) == []
  {
  }

  lemma {:induction false} ChatterThenRequest(chatter: seq<ClientMessage>, request: ClientMessage)
    requires AllFit(chatter) && forall i :: 0 <= i < |chatter| ==> !chatter[i].UpdateRequest?
    requires request.Fits() && request.UpdateRequest?
    ensures [] + PrintAll(chatter) == PrintAll(chatter) && !Scan(PrintAll(chatter)).found
    ensures Scan(PrintAll(chatter) + request.Print()).found
  {
    hide ClientMessage.Print, Scan;
    assert PrintAll(chatter) + [] == PrintAll(chatter);
    ScanUndoesPrint(chatter, []);
    PrintAllConcat(chatter, [request]);
    var both := PrintAll(chatter + [request]);
    assert both + [] == both;
    ScanUndoesPrint(chatter + [request], []);
    assert (chatter + [request])[|chatter|].UpdateRequest?;
  }

  lemma {:induction false} PrintAllConcat(ms: seq<ClientMessage>, more: seq<ClientMessage>)
    requires AllFit(ms) && AllFit(more)
    ensures AllFit(ms + more) && PrintAll(ms + more) == PrintAll(ms) + PrintAll(more)
    ensures |more| == 1 ==> PrintAll(more) == more[0].Print()
    decreases |ms|
  {
    hide ClientMessage.Print;
    if |more| == 1 {
      assert more[1..] == [] && more[0].Print() + [] == more[0].Print();
    }
    if ms == [] {
      assert ms + more == more;
    } else {
      PrintAllConcat(ms[1..], more);
      assert (ms + more)[1..] == ms[1..] + more;
    }
  }

  // ----- archives the capture side makes -----

  /** The archive of a capture: s2c.bin and the negotiated version of meta.json. */
  function Archive(t: Tape): Capture {
    Capture(t.s2c, t.scrub.state.facts.negotiated)
  }

  lemma {:induction false} Leads(k: Secrets, h: Armed, block: Data, rest: Data)
    requires Active(h) && |block| == Expected(h)
    requires !Quits(h, Handle(k, h, block)) && LeadsToConnection(k, Handle(k, h, block).armed, rest)
    ensures LeadsToConnection(k, h, block + rest)
    ensures Answers(k, h, block) && WellAnswered(k, Handle(k, h, block).armed, rest) ==>
              WellAnswered(k, h, block + rest)
    ensures HandshakeLength(k, h, block + rest) ==
            |block| + HandshakeLength(k, Handle(k, h, block).armed, rest)
  {
    hide Handle, Answers;
    assert (block + rest)[..|block|] == block && (block + rest)[|block|..] == rest;
  }

  lemma {:induction false} InitLeads(k: Secrets, init: Data, name: Data, session: Data)
    requires |init| == 24 && |name| == U32(init[20..24])
    ensures LeadsToConnection(k, Init, (init + name) + session) && WellAnswered(k, Init, (init + name) + session)
    ensures HandshakeLength(k, Init, (init + name) + session) == |init + name|
  {
    Leads(k, Name(|name|), name, session);
    Leads(k, Init, init, name + session);
    Associative(init, name, session);
  }

  /** The recorded `none` exchange leads from the version reply to ClientInit. */
  lemma {:induction false} OfferLeads(k: Secrets, v: Version, rest: Data)
    requires v in {Version(3, 3), Version(3, 7), Version(3, 8)}
    requires LeadsToConnection(k, Init, rest) && WellAnswered(k, Init, rest)
    ensures var h, s := if v.AtLeast(3, 7) then NumberSecurityTypes(v) else AuthScheme(v),
                        NoneOffer(v) + (NoneResult(v) + rest);
            && LeadsToConnection(k, h, s) && WellAnswered(k, h, s)
            && HandshakeLength(k, h, s) == |NoneOffer(v)| + |NoneResult(v)| + HandshakeLength(k, Init, rest)
  {
    hide LeadsToConnection, HandshakeLength, WellAnswered;
    var result := NoneResult(v) + rest;
    if v.AtLeast(3, 8) {
      Leads(k, AuthResult(v), PutU32(0), rest);
    } else {
      assert result == rest;
    }
    if v.AtLeast(3, 7) {
      var one: Data, none: Data := [1], [NONE];
      Leads(k, SecurityTypes(v, 1), none, result);
      Leads(k, NumberSecurityTypes(v), one, none + result);
      Associative(one, none, result);
      assert one + none == NoneOffer(v);
    } else {
      Leads(k, AuthScheme(v), PutU32(NONE), result);
    }
  }

  lemma {:induction false} StrippedLeads(k: Secrets, greeting: Data, v: Version, init: Data, name: Data, session: Data)
    requires |greeting| == 12 && Negotiate(greeting) == Some(v)
    requires |init| == 24 && |name| == U32(init[20..24])
    ensures LeadsToConnection(k, Hello, StrippedS2C(greeting, v, init, name) + session)
    ensures WellAnswered(k, Hello, StrippedS2C(greeting, v, init, name) + session)
    ensures HandshakeLength(k, Hello, StrippedS2C(greeting, v, init, name) + session) ==
            |StrippedS2C(greeting, v, init, name)|
  {
    hide Negotiate, LeadsToConnection, HandshakeLength, WellAnswered, NoneOffer, NoneResult;
    var rest := (init + name) + session;
    InitLeads(k, init, name, session);
    OfferLeads(k, v, rest);
    var result := NoneResult(v) + rest;
    NegotiableIsGreeting(greeting);
    Leads(k, Hello, greeting, NoneOffer(v) + result);
    Associative((greeting + NoneOffer(v)) + NoneResult(v), init + name, session);
    Associative(greeting + NoneOffer(v), NoneResult(v), rest);
    Associative(greeting, NoneOffer(v), result);
  }

  /** Replay undoes capture: record any followed session, whatever its authentication and however
      its bytes arrived. If the client that plays it back negotiates the recorded version, the
      archive takes it, with no password, to connection-made exactly at the end of the server name. */
  lemma {:induction false} EveryCaptureIsPlayable(k: Secrets, h: Handshake, tail: seq<Event>, events: seq<Event>)
    requires h.Valid() && Negotiate(h.greeting) == Some(h.V())
    requires Turns(events) == Turns(Script(h) + tail)
    ensures var a := Archive(Play(Blank(false), events));
            && Playable(k, a)
            && a.s2c[..NameEnd(k, a)] == StrippedS2C(h.greeting, h.V(), h.init, h.name)
            && a.s2c[NameEnd(k, a)..] == Arrived(tail, S2C)
  {
    hide Play, Turns, Script, Negotiate, LeadsToConnection, HandshakeLength, WellAnswered;
    CanonicalRewrite(h, tail, events);
    StrippedLeads(k, h.greeting, h.V(), h.init, h.name, Arrived(tail, S2C));
    var a := Archive(Play(Blank(false), events));
    assert a.s2c[..12] == h.greeting;
  }

  /** The same of runs: the archive of any turn-taking capture that followed its handshake to the end
      can be played to a client exactly when that client negotiates the recorded version. */
  lemma {:induction false} EveryRunIsPlayable(k: Secrets, events: seq<Event>)
    requires Idempotence.TurnTaking(Blank(false), events)
    requires var s := Play(Blank(false), events).scrub.state; s.phase == Done && s.facts.geometry.Some?
    ensures var a := Archive(Play(Blank(false), events));
            12 <= |a.s2c| && (Playable(k, a) <==> Negotiate(a.s2c[..12]) == a.negotiated)
  {
    hide Play, Turns, Script, Negotiate, LeadsToConnection, HandshakeLength, WellAnswered, Idempotence.TurnTaking;
    hide Arrived;
    var h, tail := Runs.EveryRunIsRewritten(events);
    var a := Archive(Play(Blank(false), events));
    assert a.s2c[..12] == h.greeting && a.negotiated == Some(h.V());
    if Negotiate(h.greeting) == Some(h.V()) {
      EveryCaptureIsPlayable(k, h, tail, events);
    }
  }

  /** A stripping scrubber holds nothing back that a flush could add. */
  lemma {:induction false} NothingToFlush(x: Scrub, d: Direction)
    requires x.Quiet() && !x.preserve
    ensures FlushOutput(x, d) == []
  {
    assert x.state.phase == Done ==> !Awaits(x.state.phase, d);
  }

  /** Record a connection, and flush at its end as `write_archive` does. */
  method Record(events: seq<Event>) returns (archive: Capture)
    ensures archive == Archive(Play(Blank(false), events))
  {
    hide Play, Feed;
    var writer := new CaptureWriter(false);
    writer.FeedAll(events);
    NothingToFlush(writer.scrubber.Value(), S2C);
    assert writer.s2c + [] == writer.s2c;
    writer.Flush();
    archive := Capture(writer.s2c, writer.scrubber.state.facts.negotiated);
  }

  /** Serve an archive to a fresh client. */
  method Serve(k: Secrets, cfg: Session.Config, archive: Capture, chatter: seq<ClientMessage>, request: ClientMessage)
    returns (ghost held: Data, ghost got: Data, calls: seq<Session.Callback>)
    requires Playable(k, archive)
    requires AllFit(chatter) && forall i :: 0 <= i < |chatter| ==> !chatter[i].UpdateRequest?
    requires request.Fits() && request.UpdateRequest?
    ensures held == archive.s2c[..NameEnd(k, archive)] && got == archive.s2c
    ensures calls == CallsOf(cfg, archive.s2c[NameEnd(k, archive)..])
  {
    hide Converse, ServedTo, Pace, Playable, NameEnd, Scan, ClientMessage.Print, CallsOf;
    var link := new Link(k, cfg, archive);
    ghost var early;
    held, early := link.ReplaySession(chatter, request);
    got, calls := link.client.heard, link.session.trace;
  }

  /** End to end: record a session, whatever its authentication and however its bytes arrive; serve
      the archive to a fresh client over channels that cut anywhere; let the client chat and then
      ask. It holds exactly the stripped handshake until it asks, and the whole recording after; and
      it calls back exactly what the recorded session bytes say. */
  method CaptureThenReplay(k: Secrets, cfg: Session.Config, ghost h: Handshake, ghost tail: seq<Event>,
                           events: seq<Event>, chatter: seq<ClientMessage>, request: ClientMessage)
    returns (ghost held: Data, ghost got: Data, calls: seq<Session.Callback>)
    requires h.Valid() && Negotiate(h.greeting) == Some(h.V())
    requires Turns(events) == Turns(Script(h) + tail)
    requires AllFit(chatter) && forall i :: 0 <= i < |chatter| ==> !chatter[i].UpdateRequest?
    requires request.Fits() && request.UpdateRequest?
    ensures held == StrippedS2C(h.greeting, h.V(), h.init, h.name)
    ensures got == held + Arrived(tail, S2C)
    ensures calls == CallsOf(cfg, Arrived(tail, S2C))
  {
    hide Play, Turns, Script, Negotiate, LeadsToConnection, HandshakeLength, StrippedS2C, Arrived;
    hide Playable, NameEnd, Archive, Feed, ClientMessage.Print, CallsOf;
    EveryCaptureIsPlayable(k, h, tail, events);
    var archive := Record(events);
    held, got, calls := Serve(k, cfg, archive, chatter, request);
    SplitAt(archive.s2c, NameEnd(k, archive));
  }

  /** The same of runs. Capture any connection whose two ends take turns and whose handshake is
      followed to its end, and serve the archive to any client that negotiates the recorded version. */
  method ReplayRun(k: Secrets, cfg: Session.Config, events: seq<Event>,
                   chatter: seq<ClientMessage>, request: ClientMessage)
    returns (ghost h: Handshake, ghost tail: seq<Event>, ghost held: Data, ghost got: Data,
             calls: seq<Session.Callback>)
    requires Idempotence.TurnTaking(Blank(false), events)
    requires var s := Play(Blank(false), events).scrub.state; s.phase == Done && s.facts.geometry.Some?
    requires var a := Archive(Play(Blank(false), events)); 12 <= |a.s2c| ==> Negotiate(a.s2c[..12]) == a.negotiated
    requires AllFit(chatter) && forall i :: 0 <= i < |chatter| ==> !chatter[i].UpdateRequest?
    requires request.Fits() && request.UpdateRequest?
    ensures h.Valid() && Turns(events) == Turns(Script(h) + tail)
    ensures held == StrippedS2C(h.greeting, h.V(), h.init, h.name)
    ensures got == held + Arrived(tail, S2C)
    ensures calls == CallsOf(cfg, Arrived(tail, S2C))
  {
    hide Play, Turns, Script, Negotiate, LeadsToConnection, HandshakeLength, Arrived, Idempotence.TurnTaking;
    hide ClientMessage.Print, CallsOf;
    h, tail := Runs.EveryRunIsRewritten(events);
    assert Archive(Play(Blank(false), events)).s2c[..12] == h.greeting;
    held, got, calls := CaptureThenReplay(k, cfg, h, tail, events, chatter, request);
  }

  /** If the captured server sent well-formed messages, the replayed client calls back exactly what
      they stand for. */
  method ReplayedMessages(k: Secrets, cfg: Session.Config, ghost h: Handshake, ghost tail: seq<Event>,
                          ghost sent: seq<ServerMessages.ServerMessage>, events: seq<Event>,
                          chatter: seq<ClientMessage>, request: ClientMessage)
    returns (calls: seq<Session.Callback>)
    requires h.Valid() && Negotiate(h.greeting) == Some(h.V())
    requires Turns(events) == Turns(Script(h) + tail)
    requires 0 < cfg.bypp && ServerMessages.AllGood(cfg, sent)
    requires ServerMessages.SessionInflates(cfg, AtMessage, sent)
    requires Arrived(tail, S2C) == ServerMessages.PrintAll(cfg, sent)
    requires AllFit(chatter) && forall i :: 0 <= i < |chatter| ==> !chatter[i].UpdateRequest?
    requires request.Fits() && request.UpdateRequest?
    ensures calls == ServerMessages.CallsAll(cfg, sent)
  {
    hide Turns, Script, Negotiate, Arrived, ClientMessage.Print, Parsing.Run, StrippedS2C;
    hide ServerMessages.AllGood, ServerMessages.PrintAll, ServerMessages.CallsAll, ServerMessages.SessionInflates;
    ghost var held, got;
    held, got, calls := CaptureThenReplay(k, cfg, h, tail, events, chatter, request);
    ServerMessages.ParseUndoesPrint(cfg, AtMessage, sent);
  }
}
