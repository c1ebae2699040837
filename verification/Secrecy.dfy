/**
  A capture cut short inside the auth exchange (vncdotool/capture.py): whatever part of the
  exchange has arrived, in whatever pieces, nothing of it is recorded, and nothing of it comes
  out at disconnect either.
 */
module Secrecy {
  import opened Bytes
  import opened Grammar
  import opened Scrubber
  import opened Segmentation
  import opened Idempotence

  /** The positions behind the auth exchange. */
  predicate PastAuth(p: Phase) {
    p.SecurityResult? || p.ClientInit? || p.ServerInit? || p.ServerName? || p.Done?
  }

  lemma {:induction false} NoWayBack(s: State, chunk: Data)
    requires Sound(s.phase) && Waiting(s.phase).Some? && |chunk| == Need(s.phase)
    ensures PastAuth(s.phase) ==> PastAuth(Next(false, s, chunk).phase)
    ensures InAuth(s.phase) ==> InAuth(Next(false, s, chunk).phase) || PastAuth(Next(false, s, chunk).phase)
    ensures InAuth(s.phase) ==> Recording(false, s.phase, chunk) == []
  {
  }

  lemma {:induction false} DrainPastAuth(s: State, d: Direction, buf: Data)
    requires Sound(s.phase) && PastAuth(s.phase)
    ensures PastAuth(Drain(false, s, d, buf).state.phase)
    decreases Rank(s.phase)
  {
    hide Next, Rank, Waiting, Sound, Recording, PastAuth;
    if Awaits(s.phase, d) && |buf| >= Need(s.phase) {
      var n := Need(s.phase);
      NoWayBack(s, buf[..n]);
      DrainPastAuth(Next(false, s, buf[..n]), d, buf[n..]);
    }
  }

  /** A read that starts and ends inside the exchange records nothing. */
  lemma {:induction false} DrainInAuth(s: State, d: Direction, buf: Data)
    requires Sound(s.phase) && InAuth(s.phase)
    ensures var r := Drain(false, s, d, buf);
            InAuth(r.state.phase) ==> r.out == []
    ensures var r := Drain(false, s, d, buf); InAuth(r.state.phase) || PastAuth(r.state.phase)
    decreases Rank(s.phase)
  {
    hide Next, Rank, Waiting, Sound, Recording;
    if Awaits(s.phase, d) && |buf| >= Need(s.phase) {
      var n := Need(s.phase);
      var t := Next(false, s, buf[..n]);
      NoWayBack(s, buf[..n]);
      if InAuth(t.phase) {
        DrainInAuth(t, d, buf[n..]);
      } else {
        DrainPastAuth(t, d, buf[n..]);
      }
    }
  }

  lemma {:induction false} HearInAuth(t: Tape, e: Event)
    requires t.scrub.Quiet() && !t.scrub.preserve && InAuth(t.scrub.state.phase) && InTurn(t, e)
    ensures var u := Hear(t, e);
            && (InAuth(u.scrub.state.phase) || PastAuth(u.scrub.state.phase))
            && (InAuth(u.scrub.state.phase) ==> u.s2c == t.s2c && u.c2s == t.c2s)
  {
    hide Drain, Waiting, Sound;
    var s := t.scrub.state;
    if e.data == [] {
      EmptyFeed(t.scrub, e.dir);
    } else {
      DrainInAuth(s, e.dir, t.scrub.Pending(e.dir) + e.data);
    }
    assert t.s2c + [] == t.s2c && t.c2s + [] == t.c2s;
  }

  lemma {:induction false} PlayPastAuth(t: Tape, events: seq<Event>)
    requires t.scrub.Quiet() && !t.scrub.preserve && PastAuth(t.scrub.state.phase)
    ensures PastAuth(Play(t, events).scrub.state.phase)
    decreases |events|
  {
    hide Drain, PastAuth, Waiting, Sound;
    if events != [] {
      var e := events[0];
      DrainPastAuth(t.scrub.state, e.dir, t.scrub.Pending(e.dir) + e.data);
      PlayPastAuth(Hear(t, e), events[1..]);
    }
  }

  /** From anywhere in an auth exchange to anywhere in it: the recordings do not change, and a
      disconnect flushes nothing. */
  lemma {:induction false} ExchangeLeavesNothing(t: Tape, events: seq<Event>)
    requires t.scrub.Quiet() && !t.scrub.preserve && InAuth(t.scrub.state.phase) && TurnTaking(t, events)
    requires InAuth(Play(t, events).scrub.state.phase)
    ensures var u := Play(t, events);
            && u.s2c == t.s2c && u.c2s == t.c2s
            && FlushOutput(u.scrub, S2C) == [] && FlushOutput(u.scrub, C2S) == []
    decreases |events|
  {
    hide Hear, InTurn, InAuth, PastAuth, Scrub.Quiet;
    if events == [] {
      Unfinished(t.scrub.state.phase);
    } else {
      var u := Hear(t, events[0]);
      HearInAuth(t, events[0]);
      if !InAuth(u.scrub.state.phase) {
        PlayPastAuth(u, events[1..]);
        Apart(Play(u, events[1..]).scrub.state.phase);
      }
      ExchangeLeavesNothing(u, events[1..]);
    }
  }

  lemma {:induction false} Unfinished(p: Phase)
    requires InAuth(p)
    ensures p != Done
  {
  }

  lemma {:induction false} Apart(p: Phase)
    ensures !(InAuth(p) && PastAuth(p))
  {
  }
}
