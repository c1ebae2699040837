/**
  `ReplayProtocol` (vncdotool/replay.py): a recorded s2c.bin paced against a live client by
  the capture side's own handshake grammar, then held until the client asks for a framebuffer.

  `Served` says how much of the recording a client that has sent `client` in all has been
  written. The class is the source's event handler; its contract ties it to `Served`, which
  has no notion of how the client's bytes arrived.
 */
module Replay {
  import opened Bytes
  import opened Grammar
  import opened Scrubber
  import opened Rewrite
  import opened ClientMessages

  datatype Capture = Capture(s2c: Data, negotiated: Option<Version>)

  // ----- specification -----

  datatype Outcome = AwaitingClient | Truncated | Refused | Finished

  /** How far both streams have been followed, and why no further. */
  datatype Paced = Paced(state: State, pos: nat, taken: nat, outcome: Outcome)

  /** `_version_mismatch`, at the one reply that settles the version. */
  predicate Mismatch(a: Capture, before: State, after: State) {
    && before.facts.negotiated.None? && after.facts.negotiated.Some?
    && a.negotiated.Some? && a.negotiated != after.facts.negotiated
  }

  /** Follow the grammar from `s`, taking server bytes from the recording and client bytes from `client`. */
  function Pace(a: Capture, client: Data, s: State, pos: nat, taken: nat): (p: Paced)
    requires Sound(s.phase) && pos <= |a.s2c| && taken <= |client|
    ensures Sound(p.state.phase) && pos <= p.pos <= |a.s2c| && taken <= p.taken <= |client|
    ensures p.outcome == Finished ==> Waiting(p.state.phase).None?
    ensures p.outcome == AwaitingClient ==>
              Awaits(p.state.phase, C2S) && |client| < p.taken + Need(p.state.phase)
    decreases Rank(s.phase)
  {
    if Waiting(s.phase).None? then Paced(s, pos, taken, Finished)
    else
      var n := Need(s.phase);
      if Awaits(s.phase, S2C) then
        if |a.s2c| < pos + n then Paced(s, pos, taken, Truncated)
        else Pace(a, client, Next(false, s, a.s2c[pos..pos + n]), pos + n, taken)
      else
        if |client| < taken + n then Paced(s, pos, taken, AwaitingClient)
        else
          var t := Next(false, s, client[taken..taken + n]);
          if Mismatch(a, s, t) then Paced(t, pos, taken + n, Refused)
          else Pace(a, client, t, pos, taken + n)
  }

  function PaceAll(a: Capture, client: Data): Paced {
    Pace(a, client, Start, 0, 0)
  }

  /** `count` bytes of the recording written; nothing more will be if `exhausted`. */
  datatype Served = Served(count: nat, exhausted: bool, closed: bool)

  function ServedTo(a: Capture, client: Data): (r: Served)
    ensures r.count <= |a.s2c|
  {
    var p := PaceAll(a, client);
    match p.outcome
    case AwaitingClient => Served(p.pos, false, false)
    case Refused => Served(p.pos, true, true)
    case Truncated => Served(|a.s2c|, true, false)
    case Finished =>
      if p.state.facts.geometry.Some? && !Scan(client[p.taken..]).found then Served(p.pos, false, false)
      else Served(|a.s2c|, true, false)
  }

  // ----- pacing may stop and resume -----

  /** With more client bytes, pacing goes on from where it waited, and nowhere else. */
  lemma {:induction false} PaceResumes(a: Capture, client: Data, more: Data, s: State, pos: nat, taken: nat)
    requires Sound(s.phase) && pos <= |a.s2c| && taken <= |client|
    ensures var p := Pace(a, client, s, pos, taken);
            Pace(a, client + more, s, pos, taken) ==
            if p.outcome == AwaitingClient then Pace(a, client + more, p.state, p.pos, p.taken) else p
    decreases Rank(s.phase)
  {
    hide Next, Rank, Sound, Mismatch;
    if Waiting(s.phase).Some? {
      var n := Need(s.phase);
      if Awaits(s.phase, S2C) {
        if pos + n <= |a.s2c| {
          PaceResumes(a, client, more, Next(false, s, a.s2c[pos..pos + n]), pos + n, taken);
        }
      } else if taken + n <= |client| {
        var t := Next(false, s, client[taken..taken + n]);
        assert (client + more)[taken..taken + n] == client[taken..taken + n];
        if !Mismatch(a, s, t) {
          PaceResumes(a, client, more, t, pos, taken + n);
        }
      }
    }
  }

  /** Once nothing more will be written, more client bytes change nothing. */
  lemma {:induction false} ExhaustedIsFinal(a: Capture, client: Data, more: Data)
    requires ServedTo(a, client).exhausted
    ensures ServedTo(a, client + more) == ServedTo(a, client)
  {
    hide Pace, Scan;
    PaceResumes(a, client, more, Start, 0, 0);
    var p := PaceAll(a, client);
    if p.outcome == Finished {
      ScanResumes(client[p.taken..], more);
      assert (client + more)[p.taken..] == client[p.taken..] + more;
    }
  }

  /** What is written only ever grows. */
  lemma {:induction false} ServedGrows(a: Capture, client: Data, more: Data)
    ensures ServedTo(a, client).count <= ServedTo(a, client + more).count
  {
    hide Pace, Scan;
    PaceResumes(a, client, more, Start, 0, 0);
    if ServedTo(a, client).exhausted {
      ExhaustedIsFinal(a, client, more);
    }
  }

  /** The gate. Once ServerInit has been followed, whatever the client sends is messages that ask
      for nothing and a tail. The recording stays at the end of the server name exactly while that
      tail is incomplete, and goes out whole once it is an update request or cannot be measured. */
  lemma {:induction false} GateHolds(a: Capture, client: Data) returns (f: Framing)
    requires PaceAll(a, client).outcome == Finished && PaceAll(a, client).state.facts.geometry.Some?
    ensures f.Valid() && client[PaceAll(a, client).taken..] == Concat(f.frames) + f.tail
    ensures ServedTo(a, client).count == if Asks(f.tail) then |a.s2c| else PaceAll(a, client).pos
    ensures ServedTo(a, client).count == PaceAll(a, client).pos <==>
            Incomplete(f.tail) || PaceAll(a, client).pos == |a.s2c|
  {
    hide Pace, Scan, MessageLength;
    f := Frame(client[PaceAll(a, client).taken..]);
    ScanTellsTail(f);
  }

  /** For a client that prints its messages with the `RFBClient` writers, even cut short: the first
      update request among them opens the gate, and nothing else does. */
  lemma {:induction false} GateForMessages(a: Capture, client: Data, ms: seq<ClientMessage>, tail: Data)
    requires AllFit(ms) && Incomplete(tail)
    requires var p := PaceAll(a, client);
             p.outcome == Finished && p.state.facts.geometry.Some? && client[p.taken..] == PrintAll(ms) + tail
    ensures ServedTo(a, client).count ==
            if exists i :: 0 <= i < |ms| && ms[i].UpdateRequest? then |a.s2c| else PaceAll(a, client).pos
  {
    hide Pace, Scan, Incomplete, PrintAll;
    ScanUndoesPrint(ms, tail);
  }

  // ----- all of it, or a version mismatch -----

  /** A recording that runs out under the grammar, or whose handshake ends without a session (refused,
      failed, or not to be followed), goes out whole, and the connection is kept. */
  lemma {:induction false} UngatedIsServedWhole(a: Capture, client: Data)
    requires var p := PaceAll(a, client);
             p.outcome == Truncated || (p.outcome == Finished && p.state.facts.geometry.None?)
    ensures ServedTo(a, client) == Served(|a.s2c|, true, false)
  {
    hide Pace, Scan;
  }

  /** The reply of a client settles on a version, and not on the recorded one. */
  predicate WrongVersion(a: Capture, client: Data) {
    && 12 <= |a.s2c| && 12 <= |client|
    && a.negotiated.Some? && ParseVersion(client[..12]).Some? && ParseVersion(client[..12]) != a.negotiated
  }

  /** The first two chunks: the recorded greeting and the client's reply. */
  lemma {:induction false} PaceTwo(a: Capture, client: Data)
    requires 12 <= |a.s2c| && 12 <= |client|
    ensures var s := Next(false, Start, a.s2c[..12]);
            var t := Next(false, s, client[..12]);
            && Sound(t.phase) && t.facts.negotiated == ParseVersion(client[..12])
            && PaceAll(a, client) ==
               if WrongVersion(a, client) then Paced(t, 12, 12, Refused) else Pace(a, client, t, 12, 12)
  {
    hide Pace, ParseVersion, GreetingText, Rank;
    var s := Next(false, Start, a.s2c[..12]);
    assert a.s2c[0..0 + 12] == a.s2c[..12] && client[0..0 + 12] == client[..12];
    PaceOnServer(a, client, Start, 0, 0);
    PaceOnClient(a, client, s, 12, 0);
  }

  /** Once a version is settled on, or the handshake is over, pacing cannot be refused any more. */
  lemma {:induction false} NoLaterRefusal(a: Capture, client: Data, s: State, pos: nat, taken: nat)
    requires Sound(s.phase) && pos <= |a.s2c| && taken <= |client|
    requires s.facts.negotiated.Some? || s.phase == Done
    ensures Pace(a, client, s, pos, taken).outcome != Refused
    decreases Rank(s.phase)
  {
    hide Next, Rank, Sound;
    if Waiting(s.phase).Some? {
      var n := Need(s.phase);
      if Awaits(s.phase, S2C) {
        if pos + n <= |a.s2c| {
          NextKeepsVersion(s, a.s2c[pos..pos + n]);
          NoLaterRefusal(a, client, Next(false, s, a.s2c[pos..pos + n]), pos + n, taken);
        }
      } else if taken + n <= |client| {
        VersionStays(s, client[taken..taken + n]);
        NoLaterRefusal(a, client, Next(false, s, client[taken..taken + n]), pos, taken + n);
      }
    }
  }

  lemma {:induction false} VersionStays(s: State, chunk: Data)
    requires Sound(s.phase) && Waiting(s.phase).Some? && |chunk| == Need(s.phase) && s.facts.negotiated.Some?
    ensures Next(false, s, chunk).facts.negotiated.Some?
  {
    hide ParseVersion, GreetingText, U32, U16;
  }

  /** A client that settles on another version than the recorded one is turned away with exactly the
      greeting written; that is the only reason to close, and the only way that less than the whole
      recording is written for good. */
  lemma {:induction false} TurnedAwayExactly(a: Capture, client: Data)
    ensures ServedTo(a, client).closed <==> WrongVersion(a, client)
    ensures WrongVersion(a, client) ==> ServedTo(a, client) == Served(12, true, true)
    ensures ServedTo(a, client).exhausted && !WrongVersion(a, client) ==> ServedTo(a, client).count == |a.s2c|
  {
    hide Pace, Scan, ParseVersion, GreetingText, Rank;
    if 12 <= |a.s2c| && 12 <= |client| {
      PaceTwo(a, client);
      if !WrongVersion(a, client) {
        var t := Next(false, Next(false, Start, a.s2c[..12]), client[..12]);
        ReplySettles(a.s2c[..12], client[..12]);
        NoLaterRefusal(a, client, t, 12, 12);
      }
    } else {
      PaceShort(a, client);
    }
  }

  lemma {:induction false} ReplySettles(greeting: Data, reply: Data)
    requires |greeting| == 12 && |reply| == 12
    ensures var t := Next(false, Next(false, Start, greeting), reply);
            t.facts.negotiated.Some? || t.phase == Done
  {
    hide ParseVersion, GreetingText;
  }

  /** Before the reply is complete the server has sent the greeting and waits; a recording without a
      whole greeting is sent as it is. */
  lemma {:induction false} PaceShort(a: Capture, client: Data)
    requires |a.s2c| < 12 || |client| < 12
    ensures ServedTo(a, client) == if |a.s2c| < 12 then Served(|a.s2c|, true, false) else Served(12, false, false)
  {
    hide ParseVersion, GreetingText;
    if 12 <= |a.s2c| {
      PaceOnServer(a, client, Start, 0, 0);
    }
  }

  // ----- the scrubber never parks a zero-byte want -----

  /** Where the scrubber settles after a chunk that brought it to `t`: past every zero-byte want. */
  function Settle(t: State, d: Direction): State
    requires Sound(t.phase)
  {
    Drain(false, t, d, []).state
  }

  lemma {:induction false} DrainEmpty(t: State, d: Direction)
    requires Sound(t.phase)
    ensures Drain(false, t, d, []).rest == []
    decreases Rank(t.phase)
  {
    if Awaits(t.phase, d) && Need(t.phase) == 0 {
      DrainEmpty(Next(false, t, []), d);
    }
  }

  /** Pacing steps over zero-byte wants just as the scrubber does. */
  lemma {:induction false} PaceSettles(a: Capture, client: Data, t: State, d: Direction, pos: nat, taken: nat)
    requires Sound(t.phase) && pos <= |a.s2c| && taken <= |client|
    ensures Sound(Settle(t, d).phase)
    ensures Pace(a, client, t, pos, taken) == Pace(a, client, Settle(t, d), pos, taken)
    ensures t.facts == Settle(t, d).facts
    ensures Rank(Settle(t, d).phase) <= Rank(t.phase)
    decreases Rank(t.phase)
  {
    hide Next, Rank, Pace, Recording, Waiting, Sound;
    if Awaits(t.phase, d) && Need(t.phase) == 0 {
      PaceOverNothing(a, client, t, d, pos, taken);
      PaceSettles(a, client, Next(false, t, []), d, pos, taken);
    }
  }

  lemma {:induction false} PaceOverNothing(a: Capture, client: Data, t: State, d: Direction, pos: nat, taken: nat)
    requires Sound(t.phase) && pos <= |a.s2c| && taken <= |client| && Awaits(t.phase, d) && Need(t.phase) == 0
    ensures Next(false, t, []).facts == t.facts
    ensures Pace(a, client, t, pos, taken) == Pace(a, client, Next(false, t, []), pos, taken)
  {
    hide ParseVersion, GreetingText, Rank;
    assert a.s2c[pos..pos + 0] == [] && client[taken..taken + 0] == [];
    assert t.phase.ArdModulus? || t.phase.ArdServerKey? || t.phase.ArdClientKey?;
  }

  /** Feeding exactly what is waited for moves the grammar one step, and past zero-byte wants. */
  lemma {:induction false} ExactFeed(s: State, d: Direction, chunk: Data)
    requires Settled(s) && Awaits(s.phase, d) && |chunk| == Need(s.phase)
    ensures var x := Scrub(false, s, [], []);
            && x.Quiet() && Feed(x, d, chunk).scrub == Scrub(false, Settle(Next(false, s, chunk), d), [], [])
            && Settled(Settle(Next(false, s, chunk), d))
  {
    hide Next, Rank, Recording, Drain;
    assert [] + chunk == chunk && chunk + [] == chunk;
    DrainStep(false, s, d, chunk, []);
    DrainEmpty(Next(false, s, chunk), d);
  }

  // ----- the source's object -----

  class ReplayProtocol {
    const capture: Capture
    const scrubber: HandshakeScrubber
    var buffer: Data
    var pos: nat
    var exhausted: bool
    var awaitingRequest: bool
    var versionChecked: bool
    /** What the transport has been given, and whether it has been told to close. */
    var written: Data
    var closed: bool
    /** Every byte the client has sent, and how many of them the handshake took. */
    ghost var received: Data
    ghost var taken: nat

    /** Wherever the handler is: the recording has been written up to `pos`, the grammar stands
        between two chunks, and pacing on from here is pacing from the start. */
    ghost predicate Running()
      reads this, scrubber
    {
      && scrubber.Value() == Scrub(false, scrubber.state, [], [])
      && Settled(scrubber.state)
      && !exhausted && !closed
      && pos <= |capture.s2c| && written == capture.s2c[..pos]
      && taken <= |received|
      && Pace(capture, received, scrubber.state, pos, taken) == PaceAll(capture, received)
      && (versionChecked <==> scrubber.state.facts.negotiated.Some?)
      && if awaitingRequest then
           && scrubber.state.phase == Done && scrubber.state.facts.geometry.Some?
           && Scan(buffer) == Scan(received[taken..])
         else
           buffer == received[taken..]
    }

    /** The grammar has finished, or the recording has run out under it. */
    ghost predicate AtTheEnd()
      reads this, scrubber
    {
      PaceAll(capture, received) ==
      Paced(scrubber.state, pos, taken, if Waiting(scrubber.state.phase).None? then Finished else Truncated)
    }

    /** Between two events. */
    ghost predicate Valid()
      reads this, scrubber
    {
      && ServedTo(capture, received) == Served(|written|, exhausted, closed)
      && written <= capture.s2c
      && (!exhausted ==>
            && Running()
            && if awaitingRequest then Scan(buffer) == Scanned(false, buffer)
               else Awaits(scrubber.state.phase, C2S) && |buffer| < Need(scrubber.state.phase))
    }

    constructor (archive: Capture)
      ensures Valid() && fresh(scrubber) && capture == archive && received == []
    {
      capture := archive;
      scrubber := new HandshakeScrubber(false);
      buffer, pos, written, received, taken := [], 0, [], [], 0;
      exhausted, awaitingRequest, versionChecked, closed := false, false, false, false;
      new;
      Advance();
    }

    /** One recorded chunk goes out (the `s2c` arm of `advance`). */
    method SendChunk(nbytes: nat)
      requires Running() && !awaitingRequest
      requires Waiting(scrubber.state.phase) == Some(Want(S2C, nbytes)) && pos + nbytes <= |capture.s2c|
      modifies this, scrubber
      ensures Running() && !awaitingRequest && received == old(received)
      ensures Rank(scrubber.state.phase) < old(Rank(scrubber.state.phase))
    {
      hide Next, Drain, Feed, Rank, Pace, Scan, Settle;
      var chunk := capture.s2c[pos..pos + nbytes];
      ghost var s, t := scrubber.state, Next(false, scrubber.state, chunk);
      ExactFeed(s, S2C, chunk);
      PaceOnServer(capture, received, s, pos, taken);
      PaceSettles(capture, received, t, S2C, pos + nbytes, taken);
      NextKeepsVersion(s, chunk);
      assert capture.s2c[..pos + nbytes] == capture.s2c[..pos] + chunk;
      written := written + chunk;
      pos := pos + nbytes;
      var _ := scrubber.FeedTap(S2C, chunk);
    }

    /** One chunk of the client's reply is followed (the other arm of `advance`). */
    method TakeChunk(nbytes: nat) returns (mismatch: bool)
      requires Running() && !awaitingRequest
      requires Waiting(scrubber.state.phase) == Some(Want(C2S, nbytes)) && nbytes <= |buffer|
      modifies this, scrubber
      ensures received == old(received)
      ensures mismatch ==> Valid() && exhausted
      ensures !mismatch ==>
                Running() && !awaitingRequest && Rank(scrubber.state.phase) < old(Rank(scrubber.state.phase))
    {
      hide Next, Drain, Feed, Rank, Pace, Scan, Settled, Settle;
      var chunk := buffer[..nbytes];
      buffer := buffer[nbytes..];
      ghost var s, t := scrubber.state, Next(false, scrubber.state, chunk);
      assert received[taken..taken + nbytes] == chunk && received[taken + nbytes..] == buffer;
      ExactFeed(s, C2S, chunk);
      PaceOnClient(capture, received, s, pos, taken);
      PaceSettles(capture, received, t, C2S, pos, taken + nbytes);
      taken := taken + nbytes;
      var _ := scrubber.FeedTap(C2S, chunk);
      mismatch := VersionMismatch();
      if mismatch {
        assert Mismatch(capture, s, t);
      }
    }

    /** `_version_mismatch`. */
    method VersionMismatch() returns (mismatch: bool)
      modifies this`versionChecked, this`exhausted, this`closed
      ensures versionChecked == (old(versionChecked) || scrubber.state.facts.negotiated.Some?)
      ensures mismatch == (!old(versionChecked) && scrubber.state.facts.negotiated.Some?
                           && capture.negotiated.Some? && capture.negotiated != scrubber.state.facts.negotiated)
      ensures exhausted == (old(exhausted) || mismatch) && closed == (old(closed) || mismatch)
    {
      if versionChecked || scrubber.state.facts.negotiated.None? {
        return false;
      }
      versionChecked := true;
      if capture.negotiated.None? || capture.negotiated == scrubber.state.facts.negotiated {
        return false;
      }
      closed := true;
      exhausted := true;
      return true;
    }

    /** The loop of `advance`: true when it must leave without serving the session. */
    method FollowHandshake() returns (leave: bool)
      requires Running()
      modifies this, scrubber
      ensures received == old(received)
      ensures leave ==> Valid()
      ensures !leave ==> Running()
      ensures !leave ==> AtTheEnd()
    {
      hide Next, Rank, Scan, Settled;
      while Waiting(scrubber.state.phase).Some?
        invariant Running() && received == old(received)
        decreases Rank(scrubber.state.phase)
      {
        var want := Waiting(scrubber.state.phase).value;
        if want.direction == S2C {
          if |capture.s2c| < pos + want.nbytes {
            // Truncated capture: the short remainder is left to the final send.
            return false;
          }
          SendChunk(want.nbytes);
        } else {
          if |buffer| < want.nbytes {
            return true;
          }
          var mismatch := TakeChunk(want.nbytes);
          if mismatch {
            return true;
          }
        }
      }
      return false;
    }

    /** `_serve_session`: hold the framebuffer until the client asks for one. */
    method ServeSession()
      requires Running() && AtTheEnd()
      modifies this
      ensures Valid() && received == old(received)
    {
      hide Pace, Scan, Settled;
      var handshakeDone := Waiting(scrubber.state.phase).None?;
      if !awaitingRequest && handshakeDone && scrubber.state.facts.geometry.Some? {
        awaitingRequest := true;
      }
      if awaitingRequest {
        var found, rest := SawUpdateRequest(buffer);
        buffer := rest;
        if !found {
          ScanResumes(received[taken..], []);
          assert received[taken..] + [] == received[taken..] && rest + [] == rest;
          return;
        }
      }
      var remainder := capture.s2c[pos..];
      if remainder != [] {
        written := written + remainder;
        pos := |capture.s2c|;
      }
      exhausted := true;
    }

    /** `advance`. */
    method Advance()
      requires Running()
      modifies this, scrubber
      ensures Valid() && received == old(received)
    {
      var leave := FollowHandshake();
      if !leave {
        ServeSession();
      }
    }

    /** `dataReceived`: whatever the pieces, what has been written is `ServedTo` of all the client sent. */
    method DataReceived(data: Data)
      requires Valid()
      modifies this, scrubber
      ensures Valid() && received == old(received) + data
      ensures written == capture.s2c[..ServedTo(capture, old(received) + data).count]
      ensures old(written) <= written
    {
      hide Pace, Scan, Settled, Mismatch, ServedTo;
      ServedGrows(capture, received, data);
      if exhausted {
        ExhaustedIsFinal(capture, received, data);
        received := received + data;
        return;
      }
      PaceResumes(capture, received, data, scrubber.state, pos, taken);
      PaceResumes(capture, received, data, Start, 0, 0);
      Parked(capture, received, scrubber.state, pos, taken);
      ScanResumes(received[taken..], data);
      assert (received + data)[taken..] == received[taken..] + data;
      buffer := buffer + data;
      received := received + data;
      Advance();
    }
  }

  // ----- one step of pacing -----

  lemma {:induction false} PaceOnServer(a: Capture, client: Data, s: State, pos: nat, taken: nat)
    requires Sound(s.phase) && taken <= |client|
    requires Awaits(s.phase, S2C) && pos + Need(s.phase) <= |a.s2c|
    ensures var n := Need(s.phase);
            Pace(a, client, s, pos, taken) ==
            Pace(a, client, Next(false, s, a.s2c[pos..pos + n]), pos + n, taken)
  {
    hide Next;
  }

  lemma {:induction false} PaceOnClient(a: Capture, client: Data, s: State, pos: nat, taken: nat)
    requires Sound(s.phase) && pos <= |a.s2c|
    requires Awaits(s.phase, C2S) && taken + Need(s.phase) <= |client|
    ensures var n := Need(s.phase);
            var t := Next(false, s, client[taken..taken + n]);
            Pace(a, client, s, pos, taken) ==
            if Mismatch(a, s, t) then Paced(t, pos, taken + n, Refused) else Pace(a, client, t, pos, taken + n)
    ensures var t := Next(false, s, client[taken..taken + Need(s.phase)]);
            s.facts.negotiated.Some? ==> t.facts.negotiated.Some?
  {
  }

  lemma {:induction false} NextKeepsVersion(s: State, chunk: Data)
    requires Sound(s.phase) && Awaits(s.phase, S2C) && |chunk| == Need(s.phase)
    ensures Next(false, s, chunk).facts.negotiated == s.facts.negotiated
  {
  }

  /** Nothing to do before more client bytes arrive. */
  lemma {:induction false} Parked(a: Capture, client: Data, s: State, pos: nat, taken: nat)
    requires Sound(s.phase) && pos <= |a.s2c| && taken <= |client|
    requires Waiting(s.phase).None? || (Awaits(s.phase, C2S) && |client| < taken + Need(s.phase))
    ensures Pace(a, client, s, pos, taken) ==
            Paced(s, pos, taken, if Waiting(s.phase).None? then Finished else AwaitingClient)
  {
  }
}
