/**
  What a capture records does not depend on how TCP cut the bytes, and with
  `preserve_auth` it is exactly the bytes (vncdotool/capture.py, `_feed`, `CaptureWriter`).
 */
module Segmentation {
  import opened Bytes
  import opened Grammar
  import opened Scrubber

  // ----- one tap -----

  /** Draining `a + b` is draining `a`, then what is left of it followed by `b`. */
  lemma {:induction false} DrainSplit(preserve: bool, s: State, d: Direction, a: Data, b: Data)
    requires Sound(s.phase)
    ensures Drain(preserve, s, d, a + b) ==
            var r := Drain(preserve, s, d, a);
            var q := Drain(preserve, r.state, d, r.rest + b);
            q.(out := r.out + q.out)
    decreases Rank(s.phase)
  {
    hide Next, Recording, Rank, Waiting, Sound;
    if Awaits(s.phase, d) && |a| >= Need(s.phase) {
      var n := Need(s.phase);
      assert (a + b)[..n] == a[..n] && (a + b)[n..] == a[n..] + b;
      var t := Next(preserve, s, a[..n]);
      DrainSplit(preserve, t, d, a[n..], b);
      var r := Drain(preserve, t, d, a[n..]);
      Associative(Recording(preserve, s.phase, a[..n]), r.out, Drain(preserve, r.state, d, r.rest + b).out);
    }
  }

  /** In any state between two calls, and for either tap, feeding `a` then `b` is feeding `a + b`. */
  lemma {:induction false} FeedSplit(x: Scrub, d: Direction, a: Data, b: Data)
    requires x.Quiet()
    ensures var r := Feed(x, d, a);
            var q := Feed(r.scrub, d, b);
            Feed(x, d, a + b) == Fed(q.scrub, r.out + q.out)
  {
    hide Next, Recording, Rank, Waiting, Sound, Drain;
    var buf := x.Pending(d);
    Associative(buf, a, b);
    DrainSplit(x.preserve, x.state, d, buf + a, b);
    var r := Drain(x.preserve, x.state, d, buf + a);
    var q := Drain(x.preserve, r.state, d, r.rest + b);
    Associative(r.out, q.out, q.rest);
    if !Awaits(r.state.phase, d) {
      DrainIdle(x.preserve, r.state, d, r.rest + b);
      DrainIdle(x.preserve, r.state, d, [] + b);
      Associative(r.out, r.rest, b);
    }
  }

  lemma {:induction false} DrainIdle(preserve: bool, s: State, d: Direction, buf: Data)
    requires Sound(s.phase) && !Awaits(s.phase, d)
    ensures Drain(preserve, s, d, buf) == Drained(s, buf, [])
  {
  }

  // ----- a whole capture -----

  datatype Event = Event(dir: Direction, data: Data)

  /** A `CaptureWriter`: the scrubber and both recorded streams. */
  datatype Tape = Tape(scrub: Scrub, s2c: Data, c2s: Data) {
    function Record(d: Direction, fed: Fed): Tape {
      if d == S2C then Tape(fed.scrub, s2c + fed.out, c2s) else Tape(fed.scrub, s2c, c2s + fed.out)
    }

    function On(d: Direction): Data {
      if d == S2C then s2c else c2s
    }
  }

  function Blank(preserve: bool): Tape {
    Tape(Fresh(preserve), [], [])
  }

  function Hear(t: Tape, e: Event): (u: Tape)
    requires t.scrub.Quiet()
    ensures u.scrub.Quiet() && u.scrub.preserve == t.scrub.preserve
  {
    t.Record(e.dir, Feed(t.scrub, e.dir, e.data))
  }

  /** The capture after `events`, in their order of arrival. */
  function Play(t: Tape, events: seq<Event>): (u: Tape)
    requires t.scrub.Quiet()
    ensures u.scrub.Quiet() && u.scrub.preserve == t.scrub.preserve
    decreases |events|
  {
    if events == [] then t else Play(Hear(t, events[0]), events[1..])
  }

  lemma {:induction false} PlayConcat(t: Tape, es: seq<Event>, fs: seq<Event>)
    requires t.scrub.Quiet()
    ensures Play(t, es + fs) == Play(Play(t, es), fs)
    decreases |es|
  {
    hide Feed, Hear;
    if es == [] {
      assert es + fs == fs;
    } else {
      assert (es + fs)[0] == es[0] && (es + fs)[1..] == es[1..] + fs;
      PlayConcat(Hear(t, es[0]), es[1..], fs);
    }
  }

  /** Put `e` in front, joined to the first event if that goes the same way. */
  function Join(e: Event, es: seq<Event>): seq<Event> {
    if e.data == [] then es
    else if es != [] && es[0].dir == e.dir then [Event(e.dir, e.data + es[0].data)] + es[1..]
    else [e] + es
  }

  /** The turns behind a list of events: empty reads dropped, neighbours in one direction joined. */
  function Turns(events: seq<Event>): seq<Event> {
    if events == [] then [] else Join(events[0], Turns(events[1..]))
  }

  lemma {:induction false} JoinPlays(t: Tape, e: Event, es: seq<Event>)
    requires t.scrub.Quiet()
    ensures Play(t, Join(e, es)) == Play(Hear(t, e), es)
  {
    hide Feed;
    if e.data == [] {
      EmptyFeed(t.scrub, e.dir);
      assert Hear(t, e) == t;
    } else if es != [] && es[0].dir == e.dir {
      var joined := Event(e.dir, e.data + es[0].data);
      FeedSplit(t.scrub, e.dir, e.data, es[0].data);
      assert Hear(t, joined) == Hear(Hear(t, e), es[0]);
      assert ([joined] + es[1..])[1..] == es[1..];
    } else {
      assert ([e] + es)[1..] == es;
    }
  }

  lemma {:induction false} EmptyFeed(x: Scrub, d: Direction)
    requires x.Quiet()
    ensures Feed(x, d, []) == Fed(x, [])
  {
  }

  /** A capture is a function of the turns alone. */
  lemma {:induction false} PlayTurns(t: Tape, events: seq<Event>)
    requires t.scrub.Quiet()
    ensures Play(t, events) == Play(t, Turns(events))
    decreases |events|
  {
    hide Feed, Hear, Join;
    if events != [] {
      PlayTurns(Hear(t, events[0]), events[1..]);
      JoinPlays(t, events[0], Turns(events[1..]));
    }
  }

  /** Two arrivals with the same turns leave the same scrubber and the same recordings. */
  lemma {:induction false} CaptureIgnoresChunking(t: Tape, es: seq<Event>, fs: seq<Event>)
    requires t.scrub.Quiet()
    requires Turns(es) == Turns(fs)
    ensures Play(t, es) == Play(t, fs)
  {
    PlayTurns(t, es);
    PlayTurns(t, fs);
  }

  // ----- preserve_auth -----

  /** Everything that arrived in direction `d`. */
  function Arrived(events: seq<Event>, d: Direction): Data {
    if events == [] then []
    else (if events[0].dir == d then events[0].data else []) + Arrived(events[1..], d)
  }

  lemma {:induction false} DrainConserves(s: State, d: Direction, buf: Data)
    requires Sound(s.phase)
    ensures var r := Drain(true, s, d, buf); r.out + r.rest == buf
    decreases Rank(s.phase)
  {
    hide Next, Rank, Waiting, Sound;
    if Awaits(s.phase, d) && |buf| >= Need(s.phase) {
      var n := Need(s.phase);
      DrainConserves(Next(true, s, buf[..n]), d, buf[n..]);
    }
  }

  lemma {:induction false} HearConserves(t: Tape, e: Event, d: Direction)
    requires t.scrub.Quiet() && t.scrub.preserve
    ensures var u := Hear(t, e);
            u.On(d) + u.scrub.Pending(d) ==
            t.On(d) + t.scrub.Pending(d) + if e.dir == d then e.data else []
  {
    hide Drain, Waiting, Sound;
    if e.dir == d {
      var buf := t.scrub.Pending(d) + e.data;
      DrainConserves(t.scrub.state, d, buf);
      var r := Drain(true, t.scrub.state, d, buf);
      Associative(t.On(d), r.out, r.rest);
      Associative(t.On(d), t.scrub.Pending(d), e.data);
    }
  }

  /** Over every interleaving, what is recorded plus what is pending is what was there plus what arrived. */
  lemma {:induction false} PreserveConserves(t: Tape, events: seq<Event>, d: Direction)
    requires t.scrub.Quiet() && t.scrub.preserve
    ensures var u := Play(t, events);
            u.On(d) + u.scrub.Pending(d) == t.On(d) + t.scrub.Pending(d) + Arrived(events, d)
    decreases |events|
  {
    hide Hear;
    if events != [] {
      HearConserves(t, events[0], d);
      PreserveConserves(Hear(t, events[0]), events[1..], d);
    }
  }

  /** With `preserve_auth` the flushed capture is, byte for byte, what arrived in each direction. */
  lemma {:induction false} PreserveIsIdentity(events: seq<Event>, d: Direction)
    ensures var u := Play(Blank(true), events);
            u.On(d) + FlushOutput(u.scrub, d) == Arrived(events, d)
  {
    hide Play, Arrived;
    PreserveConserves(Blank(true), events, d);
  }

  // ----- the source's object -----

  class CaptureWriter {
    const scrubber: HandshakeScrubber
    var s2c: Data
    var c2s: Data

    function Value(): Tape
      reads this, scrubber
    {
      Tape(scrubber.Value(), s2c, c2s)
    }

    ghost predicate Valid()
      reads this, scrubber
    {
      scrubber.Valid()
    }

    constructor (preserveAuth: bool)
      ensures Valid() && fresh(scrubber) && Value() == Blank(preserveAuth)
    {
      scrubber := new HandshakeScrubber(preserveAuth);
      s2c, c2s := [], [];
    }

    /** `feed_s2c` / `feed_c2s`. */
    method FeedStream(e: Event)
      requires Valid()
      modifies this, scrubber
      ensures Valid() && Value() == Hear(old(Value()), e)
    {
      var out := scrubber.FeedTap(e.dir, e.data);
      if e.dir == S2C { s2c := s2c + out; } else { c2s := c2s + out; }
    }

    /** A whole connection: every read of either direction in order of arrival. */
    method FeedAll(events: seq<Event>)
      requires Valid()
      modifies this, scrubber
      ensures Valid() && Value() == Play(old(Value()), events)
    {
      for i := 0 to |events|
        invariant Valid()
        invariant Play(Value(), events[i..]) == Play(old(Value()), events)
      {
        assert events[i..][0] == events[i] && events[i..][1..] == events[i + 1..];
        FeedStream(events[i]);
      }
    }

    /** `flush`, at disconnect. */
    method Flush()
      requires Valid()
      modifies this, scrubber
      ensures Valid()
      ensures s2c == old(s2c + FlushOutput(scrubber.Value(), S2C))
      ensures c2s == old(c2s + FlushOutput(scrubber.Value(), C2S))
      ensures scrubber.Value() == old(scrubber.Value()).(s2c := [], c2s := [])
    {
      var s := scrubber.FlushTap(S2C);
      var c := scrubber.FlushTap(C2S);
      s2c, c2s := s2c + s, c2s + c;
    }
  }
}
