/**
  `HandshakeScrubber._feed` / `_flush` (vncdotool/capture.py): the handshake grammar driven
  by two byte directions that arrive in arbitrary pieces.

  The class carries the source's loop; the functions are its specification.
 */
module Scrubber {
  import opened Bytes
  import opened Grammar

  // ----- specification -----

  datatype Drained = Drained(state: State, rest: Data, out: Data)

  /** Advance the grammar over `buf`, arriving on `d`, for as long as it waits on `d`. */
  function Drain(preserve: bool, s: State, d: Direction, buf: Data): (r: Drained)
    requires Sound(s.phase)
    ensures Sound(r.state.phase)
    ensures Awaits(r.state.phase, d) ==> |r.rest| < Need(r.state.phase)
    ensures Awaits(s.phase, d) && Waiting(r.state.phase).Some? && !Awaits(r.state.phase, d) ==> 0 < Need(r.state.phase)
    decreases Rank(s.phase)
  {
    if Awaits(s.phase, d) && |buf| >= Need(s.phase) then
      var n := Need(s.phase);
      var r := Drain(preserve, Next(preserve, s, buf[..n]), d, buf[n..]);
      r.(out := Recording(preserve, s.phase, buf[..n]) + r.out)
    else
      Drained(s, buf, [])
  }

  /** A scrubber between two calls: the generator's position and both taps' pending bytes. */
  datatype Scrub = Scrub(preserve: bool, state: State, s2c: Data, c2s: Data) {
    function Pending(d: Direction): Data {
      if d == S2C then s2c else c2s
    }

    function WithPending(d: Direction, buf: Data): Scrub {
      if d == S2C then this.(s2c := buf) else this.(c2s := buf)
    }

    predicate QuietOn(d: Direction) {
      if Awaits(state.phase, d) then |Pending(d)| < Need(state.phase) else Pending(d) == []
    }

    /** The tap not waited on is empty; the awaited one is short of what is wanted.
        In particular no zero-byte want is ever left parked. */
    predicate Quiet() {
      Sound(state.phase) && QuietOn(S2C) && QuietOn(C2S)
    }
  }

  function Fresh(preserve: bool): Scrub {
    Scrub(preserve, Start, [], [])
  }

  datatype Fed = Fed(scrub: Scrub, out: Data)

  /** What feeding `data` to tap `d` leaves behind and what it records. A tap the grammar is
      not, or no longer, watching passes everything through. */
  function Feed(x: Scrub, d: Direction, data: Data): (r: Fed)
    requires x.Quiet()
    ensures r.scrub.Quiet() && r.scrub.preserve == x.preserve
  {
    var r := Drain(x.preserve, x.state, d, x.Pending(d) + data);
    if Awaits(r.state.phase, d) then Fed(x.(state := r.state).WithPending(d, r.rest), r.out)
    else Fed(x.(state := r.state).WithPending(d, []), r.out + r.rest)
  }

  function FlushOutput(x: Scrub, d: Direction): Data {
    if x.state.phase != Done && !x.preserve then [] else x.Pending(d)
  }

  // ----- the source's objects -----

  class HandshakeScrubber {
    const preserve: bool
    var state: State
    var s2c: Data
    var c2s: Data

    function Value(): Scrub
      reads this
    {
      Scrub(preserve, state, s2c, c2s)
    }

    ghost predicate Valid()
      reads this
    {
      Value().Quiet()
    }

    constructor (preserveAuth: bool)
      ensures Valid() && Value() == Fresh(preserveAuth)
    {
      preserve := preserveAuth;
      state, s2c, c2s := Start, [], [];
    }

    method SetPending(d: Direction, buf: Data)
      modifies this`s2c, this`c2s
      ensures Value() == old(Value()).WithPending(d, buf)
    {
      if d == S2C { s2c := buf; } else { c2s := buf; }
    }

    /** The loop of `_feed`: advance while the grammar waits on `d` and `buf` suffices. */
    method Pump(d: Direction, buf: Data) returns (rest: Data, out: Data)
      requires Sound(state.phase)
      modifies this`state
      ensures Drained(state, rest, out) == Drain(preserve, old(state), d, buf)
    {
      hide Next, Recording, Rank, Waiting, Sound;
      ghost var whole := Drain(preserve, state, d, buf);
      rest, out := buf, [];
      while Awaits(state.phase, d) && |rest| >= Need(state.phase)
        invariant Sound(state.phase)
        invariant whole == var r := Drain(preserve, state, d, rest); r.(out := out + r.out)
        decreases Rank(state.phase)
      {
        var chunk := rest[..Need(state.phase)];
        rest := rest[Need(state.phase)..];
        out := out + Recording(preserve, state.phase, chunk);
        state := Next(preserve, state, chunk);
      }
    }

    /** `_feed`: what direction `d` records for `data`. */
    method FeedTap(d: Direction, data: Data) returns (out: Data)
      requires Valid()
      modifies this
      ensures Valid()
      ensures Fed(Value(), out) == Feed(old(Value()), d, data)
    {
      if data == [] {
        return [];
      }
      var buf := Value().Pending(d) + data;
      if !Awaits(state.phase, d) {
        SetPending(d, []);
        return buf;
      }
      buf, out := Pump(d, buf);
      // No longer watched, so flush rather than hold these back forever.
      if !Awaits(state.phase, d) {
        out, buf := out + buf, [];
      }
      SetPending(d, buf);
    }

    /** `_flush`: bytes still held on `d` at disconnect; a half-rewritten handshake drops them. */
    method FlushTap(d: Direction) returns (out: Data)
      requires Valid()
      modifies this
      ensures Valid()
      ensures out == FlushOutput(old(Value()), d)
      ensures Value() == old(Value()).WithPending(d, [])
    {
      out := if state.phase != Done && !preserve then [] else Value().Pending(d);
      SetPending(d, []);
    }
  }
}
