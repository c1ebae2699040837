/**
  The receive loop of `RFBClient` (vncdotool/rfb.py `dataReceived`, `_handleExpected`,
  `abortConnection`) over the session handlers: what it calls back is a function of the
  bytes received, not of how they were cut, and an abort is final.
 */
module Parsing {
  import opened Bytes
  import opened Session
  import opened Tiling
  import Zrle

  /** The parser between two reads, its unconsumed bytes, and every callback made. */
  datatype Ran = Ran(parser: Parser, packet: Data, trace: seq<Callback>)

  /** 1 when the armed handler takes no bytes at all. */
  function Idle(cfg: Config, h: Handler): nat
    requires Sensible(h)
  {
    if !Halted(h) && Expected(cfg, h) == 0 then 1 else 0
  }

  function Run(cfg: Config, p: Parser, packet: Data): (r: Ran)
    requires Sensible(p.armed)
    ensures Sensible(r.parser.armed)
    ensures !Halted(r.parser.armed) ==> |r.packet| < Expected(cfg, r.parser.armed)
    ensures Halted(r.parser.armed) ==> r.packet == []
    decreases |packet|, Idle(cfg, p.armed)
  {
    if Halted(p.armed) then Ran(p, [], [])
    else if Expected(cfg, p.armed) <= |packet| then
      var n := Expected(cfg, p.armed);
      var a := React(cfg, p, packet[..n]);
      ZeroStep(cfg, p, packet[..n]);
      var r := Run(cfg, a.parser, packet[n..]);
      r.(trace := a.calls + r.trace)
    else Ran(p, packet, [])
  }

  lemma {:induction false} ZeroStep(cfg: Config, p: Parser, block: Data)
    requires Sensible(p.armed) && !Halted(p.armed) && |block| == Expected(cfg, p.armed)
    ensures |block| == 0 ==> Idle(cfg, React(cfg, p, block).parser.armed) < Idle(cfg, p.armed)
  {
    hide React;
    if |block| == 0 {
      ZeroIsNeverTwice(cfg, p, block);
    }
  }

  /** One handler call on exactly its bytes, then the rest. */
  lemma {:induction false} RunStep(cfg: Config, p: Parser, block: Data, more: Data)
    requires Sensible(p.armed) && !Halted(p.armed) && |block| == Expected(cfg, p.armed)
    ensures var a := React(cfg, p, block);
            var r := Run(cfg, a.parser, more);
            Run(cfg, p, block + more) == r.(trace := a.calls + r.trace)
  {
    hide React, Expected;
    assert (block + more)[..|block|] == block && (block + more)[|block|..] == more;
  }

  lemma {:induction false} CallsAssociate(a: seq<Callback>, b: seq<Callback>, c: seq<Callback>)
    ensures a + (b + c) == (a + b) + c
  {
  }

  /** Reading `a` and then `b` is reading `a + b`. */
  lemma {:induction false} RunResumes(cfg: Config, p: Parser, a: Data, b: Data)
    requires Sensible(p.armed)
    ensures Run(cfg, p, a + b) ==
            var r := Run(cfg, p, a);
            var q := Run(cfg, r.parser, r.packet + b);
            q.(trace := r.trace + q.trace)
    decreases |a|, Idle(cfg, p.armed)
  {
    hide React, Expected;
    if Halted(p.armed) {
    } else if Expected(cfg, p.armed) <= |a| {
      var n := Expected(cfg, p.armed);
      var s := React(cfg, p, a[..n]);
      ZeroStep(cfg, p, a[..n]);
      assert (a + b)[..n] == a[..n] && (a + b)[n..] == a[n..] + b;
      RunResumes(cfg, s.parser, a[n..], b);
      var r := Run(cfg, s.parser, a[n..]);
      CallsAssociate(s.calls, r.trace, Run(cfg, r.parser, r.packet + b).trace);
    } else {
      assert [] + Run(cfg, p, a + b).trace == Run(cfg, p, a + b).trace;
    }
  }

  /** Reading a list of chunks one at a time. */
  function RunChunks(cfg: Config, r: Ran, chunks: seq<Data>): Ran
    requires Sensible(r.parser.armed)
    decreases |chunks|
  {
    if chunks == [] then r
    else
      var q := Run(cfg, r.parser, r.packet + chunks[0]);
      RunChunks(cfg, q.(trace := r.trace + q.trace), chunks[1..])
  }

  /** However the bytes are cut, the callbacks are those of the bytes in one piece. */
  lemma {:induction false} ChunkingIsInvisible(cfg: Config, p: Parser, heard: Data, chunks: seq<Data>)
    requires Sensible(p.armed)
    ensures RunChunks(cfg, Run(cfg, p, heard), chunks) == Run(cfg, p, heard + Concat(chunks))
    decreases |chunks|
  {
    hide Run;
    if chunks == [] {
      assert heard + [] == heard;
    } else {
      RunResumes(cfg, p, heard, chunks[0]);
      ChunkingIsInvisible(cfg, p, heard + chunks[0], chunks[1..]);
      Associative(heard, chunks[0], Concat(chunks[1..]));
    }
  }

  // ----- aborting -----

  /** Only a rectangle header aborts, and that call reports exactly one error, as its last act. */
  lemma {:induction false} AbortStep(cfg: Config, p: Parser, block: Data)
    requires Sensible(p.armed) && !Halted(p.armed) && |block| == Expected(cfg, p.armed)
    requires React(cfg, p, block).parser.armed == Aborted
    ensures var calls := React(cfg, p, block).calls;
            |calls| == 2 && calls[0].Header? && calls[1] == ProtocolError
  {
    hide U16, U32, I32, RreSubrects, PlainSubrects, ColouredSubrects, LastColour, Colours, NextTile;
    assert p.armed == RectHeader;
  }

  /** Once aborted: the abort's error is the last callback ever, whatever arrives afterwards. */
  lemma {:induction false} AbortIsFinal(cfg: Config, p: Parser, heard: Data, more: Data) returns (before: seq<Callback>)
    requires Sensible(p.armed) && !Halted(p.armed)
    requires Run(cfg, p, heard).parser.armed == Aborted
    ensures Run(cfg, p, heard).trace == before + [ProtocolError]
    ensures Run(cfg, p, heard + more) == Run(cfg, p, heard)
    decreases |heard|, Idle(cfg, p.armed)
  {
    hide React, Expected;
    RunResumes(cfg, p, heard, more);
    var r := Run(cfg, p, heard);
    assert r.trace + [] == r.trace;
    var n := Expected(cfg, p.armed);
    var a := React(cfg, p, heard[..n]);
    ZeroStep(cfg, p, heard[..n]);
    if a.parser.armed == Aborted {
      AbortStep(cfg, p, heard[..n]);
      before := a.calls[..1];
      assert a.calls == before + [ProtocolError] && a.calls + [] == a.calls;
    } else {
      var rest := AbortIsFinal(cfg, a.parser, heard[n..], more);
      before := a.calls + rest;
      CallsAssociate(a.calls, rest, [ProtocolError]);
    }
  }

  // ----- the source's object -----

  class SessionClient {
    const cfg: Config
    var parser: Parser
    var packet: Data
    /** The callbacks made so far. */
    var trace: seq<Callback>
    ghost const first: Parser
    ghost var heard: Data

    ghost predicate Valid()
      reads this
    {
      && Sensible(first.armed) && Sensible(parser.armed)
      && Ran(parser, packet, trace) == Run(cfg, first, heard)
    }

    /** Armed as `_handleServerName` leaves it. */
    constructor (config: Config)
      ensures Valid() && cfg == config && heard == [] && trace == [] && first == Parser(Message, 0, [], [])
    {
      cfg := config;
      parser, packet, trace, heard := Parser(Message, 0, [], []), [], [], [];
      first := Parser(Message, 0, [], []);
    }

    /** One call of the armed handler, with the decoder loops the source runs in it. */
    method CallHandler(block: Data) returns (a: Reaction)
      requires Sensible(parser.armed) && !Halted(parser.armed) && |block| == Expected(cfg, parser.armed)
      ensures a == React(cfg, parser, block)
    {
      hide RreSubrects, PlainSubrects, ColouredSubrects, LastColour, NextTile, NextRectangle, HandleRectangle;
      hide FinishZrle, U16, U32, I32, Colours;
      var h := parser.armed;
      if h.RreBody? {
        var calls := PaintRreSubrects(cfg.bypp, h.rect.x, h.rect.y, block);
        a := NextRectangle(parser, calls);
      } else if h.HexPlain? {
        var calls := PaintPlainSubrects(h.tile.tx, h.tile.ty, h.tile.fg, block);
        a := NextTile(parser, h.tile, calls);
      } else if h.HexColoured? {
        var calls, color := PaintColouredSubrects(cfg.bypp, h.tile.tx, h.tile.ty, h.tile.fg, block);
        a := NextTile(parser, h.tile.(fg := color), calls);
      } else if h.ZrleBody? {
        var data := cfg.inflate(parser.zipped, block);
        if data.None? {
          return Reaction(parser.(armed := Crashed), []);
        }
        var paints, error := Zrle.DecodeRectangle(h.rect, data.value);
        a := FinishZrle(parser.(zipped := parser.zipped + block), Zrle.Decoded(paints, error));
      } else {
        a := React(cfg, parser, block);
      }
    }

    /** `dataReceived` and the loop of `_handleExpected`. */
    method DataReceived(data: Data)
      requires Valid()
      modifies this
      ensures Valid() && heard == old(heard) + data
      ensures old(trace) <= trace
    {
      hide React, Expected;
      RunResumes(cfg, first, heard, data);
      ghost var said := trace;
      heard := heard + data;
      if Halted(parser.armed) {
        assert trace + [] == trace;
        return;
      }
      packet := packet + data;
      ghost var whole := Run(cfg, first, heard);
      while !Halted(parser.armed) && Expected(cfg, parser.armed) <= |packet|
        invariant heard == old(heard) + data && said <= trace
        invariant Sensible(parser.armed)
        invariant whole == var r := Run(cfg, parser, packet); r.(trace := trace + r.trace)
        decreases |packet|, Idle(cfg, parser.armed)
      {
        var n := Expected(cfg, parser.armed);
        var a := CallHandler(packet[..n]);
        ZeroStep(cfg, parser, packet[..n]);
        CallsAssociate(trace, a.calls, Run(cfg, a.parser, packet[n..]).trace);
        parser, packet, trace := a.parser, packet[n..], trace + a.calls;
      }
      if Halted(parser.armed) {
        packet := [];
      }
      assert trace + [] == trace;
    }
  }

  // ----- the decoder loops -----

  /** The loop of `_handleRRESubRectangles`. */
  method PaintRreSubrects(bypp: nat, topx: nat, topy: nat, block: Data) returns (calls: seq<Callback>)
    ensures calls == RreSubrects(bypp, topx, topy, block)
  {
    hide U16;
    var pos := 0;
    calls := [];
    while pos + bypp + 8 <= |block|
      invariant pos <= |block|
      invariant RreSubrects(bypp, topx, topy, block) == calls + RreSubrects(bypp, topx, topy, block[pos..])
    {
      var b := block[pos + bypp..pos + (bypp + 8)];
      var call := FillRectangle(Rect(topx + U16(b[0..2]), topy + U16(b[2..4]), U16(b[4..6]), U16(b[6..8])),
                                Some(block[pos..pos + bypp]));
      Slices(block, pos, bypp, bypp + 8);
      Slices(block, pos, 0, bypp);
      CallsAssociate(calls, [call], RreSubrects(bypp, topx, topy, block[pos + (bypp + 8)..]));
      calls := calls + [call];
      pos := pos + (bypp + 8);
    }
  }

  /** The loop of `_handleDecodeHextileSubrectsFG`. */
  method PaintPlainSubrects(tx: nat, ty: nat, color: Option<Data>, block: Data) returns (calls: seq<Callback>)
    ensures calls == PlainSubrects(tx, ty, color, block)
  {
    hide Subrect;
    var pos := 0;
    calls := [];
    while pos + 2 <= |block|
      invariant pos <= |block|
      invariant PlainSubrects(tx, ty, color, block) == calls + PlainSubrects(tx, ty, color, block[pos..])
    {
      var call := FillRectangle(Subrect(tx, ty, block[pos], block[pos + 1]), color);
      Slices(block, pos, 0, 2);
      CallsAssociate(calls, [call], PlainSubrects(tx, ty, color, block[pos + 2..]));
      calls := calls + [call];
      pos := pos + 2;
    }
  }

  /** The loop of `_handleDecodeHextileSubrectsColoured`, which leaves its last colour behind. */
  method PaintColouredSubrects(bypp: nat, tx: nat, ty: nat, fg: Option<Data>, block: Data)
    returns (calls: seq<Callback>, color: Option<Data>)
    ensures calls == ColouredSubrects(bypp, tx, ty, block)
    ensures color == LastColour(bypp, fg, block)
  {
    hide Subrect, ColouredSubrects, LastColour;
    var pos := 0;
    calls, color := [], fg;
    assert [] + ColouredSubrects(bypp, tx, ty, block) == ColouredSubrects(bypp, tx, ty, block) && block[0..] == block;
    while pos + bypp + 2 <= |block|
      invariant pos <= |block|
      invariant ColouredSubrects(bypp, tx, ty, block) == calls + ColouredSubrects(bypp, tx, ty, block[pos..])
      invariant LastColour(bypp, fg, block) == LastColour(bypp, color, block[pos..])
    {
      ColouredOne(bypp, tx, ty, color, block[pos..]);
      Slices(block, pos, 0, bypp);
      Slices(block, pos, 0, bypp + 2);
      color := Some(block[pos..pos + bypp]);
      var call := FillRectangle(Subrect(tx, ty, block[pos + bypp], block[pos + bypp + 1]), color);
      CallsAssociate(calls, [call], ColouredSubrects(bypp, tx, ty, block[pos + (bypp + 2)..]));
      calls := calls + [call];
      pos := pos + (bypp + 2);
    }
    NoColoured(bypp, tx, ty, color, block[pos..]);
    assert calls + [] == calls;
  }

  lemma {:induction false} ColouredOne(bypp: nat, tx: nat, ty: nat, color: Option<Data>, block: Data)
    requires bypp + 2 <= |block|
    ensures ColouredSubrects(bypp, tx, ty, block) ==
            [FillRectangle(Subrect(tx, ty, block[bypp], block[bypp + 1]), Some(block[0..bypp]))]
            + ColouredSubrects(bypp, tx, ty, block[bypp + 2..])
    ensures LastColour(bypp, color, block) == LastColour(bypp, Some(block[0..bypp]), block[bypp + 2..])
  {
    hide Subrect;
    assert block[0..bypp] == block[..bypp];
  }

  lemma {:induction false} NoColoured(bypp: nat, tx: nat, ty: nat, color: Option<Data>, block: Data)
    requires |block| < bypp + 2
    ensures ColouredSubrects(bypp, tx, ty, block) == [] && LastColour(bypp, color, block) == color
  {
  }
}
