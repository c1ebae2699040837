/**
  Update accounting (vncdotool/rfb.py `_handleFramebufferUpdate`, `_doConnection`,
  `_handleRectangle`): judged from the callback trace alone, every update that begins is
  committed once, before the next begins, with exactly its painted rectangles.
 */
module Accounting {
  import opened Bytes
  import opened Session
  import opened Parsing
  import opened Tiling
  import ServerMessages
  import Zrle

  /** An auditor reading the trace, knowing nothing of the parser. */
  datatype Ledger =
    | Closed
    | Open(count: nat, seen: seq<(Rect, int)>)
    | Broken

  /** The announced count is used up, or LastRect has arrived. */
  predicate Complete(count: nat, seen: seq<(Rect, int)>) {
    |seen| >= count || (seen != [] && seen[|seen| - 1].1 == PSEUDO_LAST_RECT)
  }

  /** The rectangles that carry pixels, in order. */
  function Painted(seen: seq<(Rect, int)>): seq<Rect> {
    if seen == [] then []
    else
      var (r, encoding) := seen[|seen| - 1];
      Painted(seen[..|seen| - 1]) +
      if encoding in {PSEUDO_DESKTOP_SIZE, PSEUDO_QEMU_EXTENDED_KEY_EVENT, PSEUDO_LAST_RECT} then [] else [r]
  }

  function Audit(l: Ledger, c: Callback): Ledger {
    match c
    case BeginUpdate(count) => if l.Closed? then Open(count, []) else Broken
    case Header(r, encoding) =>
      if l.Open? && !Complete(l.count, l.seen) then Open(l.count, l.seen + [(r, encoding)]) else Broken
    case CommitUpdate(rects) =>
      if l.Open? && Complete(l.count, l.seen) && rects == Painted(l.seen) then Closed else Broken
    case ProtocolError => l
    case Bell => if l.Closed? then l else Broken
    case SetColorMap(_, _) => if l.Closed? then l else Broken
    case CopyText(_) => if l.Closed? then l else Broken
    case _ => if l.Open? then l else Broken
  }

  function AuditAll(l: Ledger, trace: seq<Callback>): Ledger
    decreases |trace|
  {
    if trace == [] then l else AuditAll(Audit(l, trace[0]), trace[1..])
  }

  lemma {:induction false} AuditConcat(l: Ledger, a: seq<Callback>, b: seq<Callback>)
    ensures AuditAll(l, a + b) == AuditAll(AuditAll(l, a), b)
    decreases |a|
  {
    hide Audit;
    if a == [] {
      assert a + b == b;
    } else {
      assert (a + b)[1..] == a[1..] + b;
      AuditConcat(Audit(l, a[0]), a[1..], b);
    }
  }

  // ----- the parser keeps the books -----

  predicate Outside(h: Handler) {
    h.Message? || h.UpdateHeader? || h.ColourHeader? || h.ColourBody? || h.CutHeader? || h.CutBody?
  }

  /** What the auditor must have seen for the parser to be where it is. */
  predicate Agrees(p: Parser, l: Ledger) {
    p.armed.Aborted? ||
    if Outside(p.armed) then l == Closed
    else l.Open? && Tallies(p, l) && (p.armed == RectHeader ==> p.left > 0)
  }

  predicate Tallies(p: Parser, l: Ledger) {
    && l.Open?
    && |l.seen| + p.left == l.count
    && (l.seen == [] || l.seen[|l.seen| - 1].1 != PSEUDO_LAST_RECT)
    && p.rects == Painted(l.seen)
  }

  /** Callbacks that only paint. */
  predicate Paints(calls: seq<Callback>) {
    forall i :: 0 <= i < |calls| ==>
      && !calls[i].BeginUpdate? && !calls[i].Header? && !calls[i].CommitUpdate?
      && !calls[i].Bell? && !calls[i].SetColorMap? && !calls[i].CopyText? && !calls[i].ProtocolError?
  }

  lemma {:induction false} PaintsAreNeutral(l: Ledger, calls: seq<Callback>)
    requires l.Open? && Paints(calls)
    ensures AuditAll(l, calls) == l
    decreases |calls|
  {
    if calls != [] {
      PaintsAreNeutral(l, calls[1..]);
    }
  }

  lemma {:induction false} AuditOne(l: Ledger, c: Callback)
    ensures AuditAll(l, [c]) == Audit(l, c)
  {
    hide Audit;
    assert [c][1..] == [];
  }

  /** `_doConnection` closes the books exactly when the count has been used up. */
  lemma {:induction false} NextRectangleAgrees(p: Parser, l: Ledger, calls: seq<Callback>)
    requires Tallies(p, l) && Paints(calls)
    ensures var r := NextRectangle(p, calls); Agrees(r.parser, AuditAll(l, r.calls))
  {
    hide Painted, Paints;
    PaintsAreNeutral(l, calls);
    if p.left == 0 {
      AuditConcat(l, calls, [CommitUpdate(p.rects)]);
      AuditOne(l, CommitUpdate(p.rects));
    }
  }

  lemma {:induction false} NextTileAgrees(p: Parser, l: Ledger, t: Tile, calls: seq<Callback>)
    requires t.Placed() && Tallies(p, l) && Paints(calls)
    ensures var r := NextTile(p, t, calls); Agrees(r.parser, AuditAll(l, r.calls))
  {
    hide Painted, Paints, AuditAll;
    NextRectangleAgrees(p, l, calls);
    PaintsAreNeutral(l, calls);
  }

  /** A rectangle header adds one line to the books. */
  lemma {:induction false} Entry(l: Ledger, r: Rect, encoding: int, calls: seq<Callback>)
    requires l.Open? && !Complete(l.count, l.seen)
    ensures AuditAll(l, [Header(r, encoding)] + calls) == AuditAll(Open(l.count, l.seen + [(r, encoding)]), calls)
    ensures Painted(l.seen + [(r, encoding)]) ==
            Painted(l.seen) +
            if encoding in {PSEUDO_DESKTOP_SIZE, PSEUDO_QEMU_EXTENDED_KEY_EVENT, PSEUDO_LAST_RECT} then [] else [r]
  {
    hide Complete;
    var seen := l.seen + [(r, encoding)];
    assert seen[..|seen| - 1] == l.seen;
    assert ([Header(r, encoding)] + calls)[1..] == calls;
  }

  lemma {:induction false} HeaderAgrees(cfg: Config, p: Parser, l: Ledger, r: Rect, encoding: int)
    requires p.armed == RectHeader && Agrees(p, l)
    requires ProtocolError !in HandleRectangle(cfg, p, r, encoding).calls
    ensures var a := HandleRectangle(cfg, p, r, encoding); Agrees(a.parser, AuditAll(l, a.calls))
  {
    hide Painted, AuditAll, Audit;
    var log := [Header(r, encoding)];
    var a := HandleRectangle(cfg, p, r, encoding);
    var l' := Open(l.count, l.seen + [(r, encoding)]);
    var q := p.(left := p.left - 1);
    assert log + [] == log;
    assert p.rects + [] == p.rects;
    if encoding == PSEUDO_LAST_RECT {
      Entry(l, r, encoding, [CommitUpdate(p.rects)]);
      LastRectCloses(l', p.rects);
    } else if encoding in {PSEUDO_DESKTOP_SIZE, PSEUDO_QEMU_EXTENDED_KEY_EVENT} {
      var call := if encoding == PSEUDO_DESKTOP_SIZE then UpdateDesktopSize(r.w, r.h) else QemuKeysNegotiated;
      var after := NextRectangle(q, [call]);
      Entry(l, r, encoding, after.calls);
      NextRectangleAgrees(q, l', [call]);
      CallsAssociate(log, [call], [CommitUpdate(q.rects)]);
    } else {
      var painted := q.(rects := p.rects + [r]);
      if encoding == HEXTILE && r.h == 0 {
        var after := NextRectangle(painted, []);
        Entry(l, r, encoding, after.calls);
        NextRectangleAgrees(painted, l', []);
        assert [] + [CommitUpdate(painted.rects)] == [CommitUpdate(painted.rects)];
      } else if encoding in {RAW, COPY_RECTANGLE, HEXTILE, CORRE, RRE, ZRLE, PSEUDO_CURSOR} {
        Entry(l, r, encoding, []);
        AuditNothing(l');
      }
    }
  }

  lemma {:induction false} AuditNothing(l: Ledger)
    ensures AuditAll(l, []) == l
  {
  }

  lemma {:induction false} LastRectCloses(l: Ledger, rects: seq<Rect>)
    requires l.Open? && l.seen != [] && l.seen[|l.seen| - 1].1 == PSEUDO_LAST_RECT && rects == Painted(l.seen)
    ensures AuditAll(l, [CommitUpdate(rects)]) == Closed
  {
    hide Painted;
    AuditOne(l, CommitUpdate(rects));
  }

  lemma {:induction false} RrePaints(bypp: nat, x: nat, y: nat, block: Data)
    ensures Paints(RreSubrects(bypp, x, y, block))
    decreases |block|
  {
    hide U16;
    if |block| >= bypp + 8 { RrePaints(bypp, x, y, block[bypp + 8..]); }
  }

  lemma {:induction false} PlainPaints(x: nat, y: nat, color: Option<Data>, block: Data)
    ensures Paints(PlainSubrects(x, y, color, block))
    decreases |block|
  {
    if |block| >= 2 { PlainPaints(x, y, color, block[2..]); }
  }

  lemma {:induction false} ColouredPaints(bypp: nat, x: nat, y: nat, block: Data)
    ensures Paints(ColouredSubrects(bypp, x, y, block))
    decreases |block|
  {
    if |block| >= bypp + 2 { ColouredPaints(bypp, x, y, block[bypp + 2..]); }
  }

  lemma {:induction false} TileAgrees(cfg: Config, p: Parser, l: Ledger, block: Data)
    requires p.armed.HexTile? || p.armed.HexRaw? || p.armed.HexParts? || p.armed.HexColoured? || p.armed.HexPlain?
    requires Sensible(p.armed) && |block| == Expected(cfg, p.armed) && Agrees(p, l)
    ensures var a := React(cfg, p, block); Agrees(a.parser, AuditAll(l, a.calls))
  {
    hide Painted, AuditAll, NextTile, RreSubrects, PlainSubrects, ColouredSubrects, LastColour;
    var t := p.armed.tile;
    match p.armed {
      case HexTile(_) =>
        NextTileAgrees(p, l, t, [FillRectangle(t.Area(), t.bg)]);
        AuditNothing(l);
      case HexRaw(_) => NextTileAgrees(p, l, t, [UpdateRectangle(t.Area(), block)]);
      case HexParts(_, flags) => PartsAgree(cfg, p, l, t, flags, block);
      case HexColoured(_, _) =>
        ColouredPaints(cfg.bypp, t.tx, t.ty, block);
        NextTileAgrees(p, l, t.(fg := LastColour(cfg.bypp, t.fg, block)),
                       ColouredSubrects(cfg.bypp, t.tx, t.ty, block));
      case HexPlain(_, _) =>
        PlainPaints(t.tx, t.ty, t.fg, block);
        NextTileAgrees(p, l, t, PlainSubrects(t.tx, t.ty, t.fg, block));
    }
  }

  lemma {:induction false} PartsAgree(cfg: Config, p: Parser, l: Ledger, t: Tile, flags: Byte, block: Data)
    requires t.Placed() && |block| == PartsLength(cfg.bypp, flags) && Tallies(p, l)
    ensures var a := HandleParts(cfg, p, t, flags, block); Agrees(a.parser, AuditAll(l, a.calls))
  {
    hide Painted, AuditAll, NextTile, Flagged;
    var bg := if Flagged(flags, 2) then Some(block[..cfg.bypp]) else t.bg;
    var pos := if Flagged(flags, 2) then cfg.bypp else 0;
    var fg := if Flagged(flags, 4) then Some(block[pos..pos + cfg.bypp]) else t.fg;
    var u := t.(bg := bg, fg := fg);
    var fill := [FillRectangle(t.Area(), bg)];
    assert Paints(fill);
    NextTileAgrees(p, l, u, fill);
    PaintsAreNeutral(l, fill);
  }

  /** A ZRLE rectangle only paints, also where it ends in an exception. */
  lemma {:induction false} ZrleAgrees(cfg: Config, p: Parser, l: Ledger, r: Rect, block: Data)
    requires Tallies(p, l)
    ensures var a := HandleZrle(cfg, p, r, block); Agrees(a.parser, AuditAll(l, a.calls))
  {
    hide Painted, AuditAll, NextRectangle, PaintCall, Zrle.Decode;
    AuditNothing(l);
    if cfg.inflate(p.zipped, block).Some? {
      var d := Zrle.Decode(r, r.x, r.y, cfg.inflate(p.zipped, block).value);
      TilesPaint(d.paints);
      PaintsAreNeutral(l, PaintCalls(d.paints));
      NextRectangleAgrees(p.(zipped := p.zipped + block), l, PaintCalls(d.paints));
    }
  }

  lemma {:induction false} TilesPaint(paints: seq<Zrle.Paint>)
    ensures Paints(PaintCalls(paints))
  {
  }

  lemma {:induction false} BodyAgrees(cfg: Config, p: Parser, l: Ledger, block: Data)
    requires p.armed.RawBody? || p.armed.CopyBody? || p.armed.RreHeader? || p.armed.CorreHeader?
             || p.armed.RreBody? || p.armed.ZrleBody? || p.armed.CursorBody?
    requires |block| == Expected(cfg, p.armed) && Agrees(p, l)
    ensures var a := React(cfg, p, block); Agrees(a.parser, AuditAll(l, a.calls))
  {
    hide Painted, AuditAll, NextRectangle, RreSubrects, U16, U32, HandleZrle;
    match p.armed {
      case RawBody(r) => NextRectangleAgrees(p, l, [UpdateRectangle(r, block)]);
      case CopyBody(r) => NextRectangleAgrees(p, l, [CopyRectangle(U16(block[0..2]), U16(block[2..4]), r)]);
      case RreHeader(r) => FillAgrees(p, l, r, block[4..]);
      case CorreHeader(r) => FillAgrees(p, l, r, block[4..]);
      case RreBody(r, _) =>
        RrePaints(cfg.bypp, r.x, r.y, block);
        NextRectangleAgrees(p, l, RreSubrects(cfg.bypp, r.x, r.y, block));
      case ZrleBody(r, _) => ZrleAgrees(cfg, p, l, r, block);
      case CursorBody(r) =>
        var split := CursorPixels(cfg, r);
        NextRectangleAgrees(p, l, [UpdateCursor(r, block[..split], block[split..])]);
    }
  }

  /** Every handler call that reports no error keeps parser and auditor in agreement. */
  lemma {:induction false} ReactAgrees(cfg: Config, p: Parser, l: Ledger, block: Data)
    requires Sensible(p.armed) && !Halted(p.armed) && |block| == Expected(cfg, p.armed) && Agrees(p, l)
    requires ProtocolError !in React(cfg, p, block).calls
    ensures var a := React(cfg, p, block); Agrees(a.parser, AuditAll(l, a.calls))
  {
    hide Painted, AuditAll, NextTile, HandleRectangle, HandleParts, HandleTile, NextRectangle, Colours, RreSubrects;
    hide U16, U32, I32;
    match p.armed {
      case HexTile(_) => TileAgrees(cfg, p, l, block);
      case HexRaw(_) => TileAgrees(cfg, p, l, block);
      case HexParts(_, _) => TileAgrees(cfg, p, l, block);
      case HexColoured(_, _) => TileAgrees(cfg, p, l, block);
      case HexPlain(_, _) => TileAgrees(cfg, p, l, block);
      case RectHeader =>
        HeaderAgrees(cfg, p, l,
                     Rect(U16(block[0..2]), U16(block[2..4]), U16(block[4..6]), U16(block[6..8])), I32(block[8..12]));
      case UpdateHeader => BeginAgrees(p, l, U16(block[1..3]));
      case RawBody(_) => BodyAgrees(cfg, p, l, block);
      case CopyBody(_) => BodyAgrees(cfg, p, l, block);
      case RreHeader(_) => BodyAgrees(cfg, p, l, block);
      case CorreHeader(_) => BodyAgrees(cfg, p, l, block);
      case RreBody(_, _) => BodyAgrees(cfg, p, l, block);
      case ZrleBody(_, _) => BodyAgrees(cfg, p, l, block);
      case CursorBody(_) => BodyAgrees(cfg, p, l, block);
      case Message => AuditOne(l, Bell); AuditNothing(l);
      case ColourBody(first, _) => AuditOne(l, SetColorMap(first, Colours(block)));
      case CutBody(_) => AuditOne(l, CopyText(block));
      case _ => AuditNothing(l);
    }
  }

  lemma {:induction false} FillAgrees(p: Parser, l: Ledger, r: Rect, color: Data)
    requires Tallies(p, l)
    ensures var fill := [FillRectangle(r, Some(color))];
            && AuditAll(l, fill) == l
            && var a := NextRectangle(p, fill); Agrees(a.parser, AuditAll(l, a.calls))
  {
    hide Painted, AuditAll;
    var fill := [FillRectangle(r, Some(color))];
    assert Paints(fill);
    PaintsAreNeutral(l, fill);
    NextRectangleAgrees(p, l, fill);
  }

  lemma {:induction false} BeginAgrees(p: Parser, l: Ledger, count: nat)
    requires l == Closed
    ensures var a := NextRectangle(p.(left := count, rects := []), [BeginUpdate(count)]);
            Agrees(a.parser, AuditAll(l, a.calls))
  {
    AuditOne(l, BeginUpdate(count));
    if count == 0 {
      AuditConcat(l, [BeginUpdate(count)], [CommitUpdate([])]);
      AuditOne(Open(0, []), CommitUpdate([]));
    }
  }

  /** On every run without a protocol error, from any point where the books agree, they still do
      at the end: each BeginUpdate has been answered by exactly one CommitUpdate before the next,
      or is the one still open, and each commit listed exactly the rectangles painted since. */
  lemma {:induction false} BooksBalance(cfg: Config, p: Parser, l: Ledger, packet: Data)
    requires Sensible(p.armed) && Agrees(p, l)
    requires ProtocolError !in Run(cfg, p, packet).trace
    ensures var r := Run(cfg, p, packet); Agrees(r.parser, AuditAll(l, r.trace))
    decreases |packet|, Idle(cfg, p.armed)
  {
    hide React, Expected, Agrees, AuditAll;
    if !Halted(p.armed) && Expected(cfg, p.armed) <= |packet| {
      var n := Expected(cfg, p.armed);
      var a := React(cfg, p, packet[..n]);
      ZeroStep(cfg, p, packet[..n]);
      var r := Run(cfg, a.parser, packet[n..]);
      NoErrorIn(a.calls, r.trace);
      ReactAgrees(cfg, p, l, packet[..n]);
      BooksBalance(cfg, a.parser, AuditAll(l, a.calls), packet[n..]);
      AuditConcat(l, a.calls, r.trace);
    } else {
      AuditNothing(l);
    }
  }

  lemma {:induction false} NoErrorIn(a: seq<Callback>, b: seq<Callback>)
    requires ProtocolError !in a + b
    ensures ProtocolError !in a && ProtocolError !in b
  {
    forall i | 0 <= i < |a| ensures a[i] != ProtocolError {
      assert (a + b)[i] == a[i];
    }
    forall i | 0 <= i < |b| ensures b[i] != ProtocolError {
      assert (a + b)[|a| + i] == b[i];
    }
  }

  /** A session from its first byte: the auditor finds nothing wrong, and between messages no
      update is open. */
  lemma {:induction false} SessionIsAccountedFor(cfg: Config, heard: Data)
    requires ProtocolError !in Run(cfg, Parser(Message, 0, [], []), heard).trace
    ensures var r := Run(cfg, Parser(Message, 0, [], []), heard);
            && !AuditAll(Closed, r.trace).Broken?
            && (r.parser.armed == Message ==> AuditAll(Closed, r.trace) == Closed)
  {
    hide Run, AuditAll;
    BooksBalance(cfg, Parser(Message, 0, [], []), Closed, heard);
    if Run(cfg, Parser(Message, 0, [], []), heard).parser.armed == Aborted {
      var _ := AbortIsFinal(cfg, Parser(Message, 0, [], []), heard, []);
    }
  }

  // ----- what counts as an error -----

  /** The rectangle and the encoding a header names. */
  function HeaderRect(block: Data): Rect
    requires |block| == 12
  {
    Rect(U16(block[0..2]), U16(block[2..4]), U16(block[4..6]), U16(block[6..8]))
  }

  /** A message type above 3, an encoding that is none of the ten, or a Raw rectangle larger than a
      known side of the framebuffer. */
  predicate Faulty(cfg: Config, p: Parser, block: Data)
    requires Sensible(p.armed) && !Halted(p.armed) && |block| == Expected(cfg, p.armed)
  {
    || (p.armed == Message && block[0] > 3)
    || (p.armed == RectHeader && p.left > 0 && I32(block[8..12]) !in ServerMessages.KNOWN)
    || (p.armed == RectHeader && p.left > 0 && I32(block[8..12]) == RAW &&
        var r := HeaderRect(block);
        (cfg.width != 0 && cfg.width < r.w) || (cfg.height != 0 && cfg.height < r.h))
  }

  lemma {:induction false} MoreWithoutError(p: Parser, calls: seq<Callback>)
    requires ProtocolError !in calls
    ensures ProtocolError !in NextRectangle(p, calls).calls
  {
  }

  lemma {:induction false} TileWithoutError(p: Parser, t: Tile, calls: seq<Callback>)
    requires t.Placed() && ProtocolError !in calls
    ensures ProtocolError !in NextTile(p, t, calls).calls
  {
    hide NextRectangle;
    MoreWithoutError(p, calls);
  }

  lemma {:induction false} PaintsAreNoErrors(calls: seq<Callback>)
    requires Paints(calls)
    ensures ProtocolError !in calls
  {
  }

  /** Every other handler call makes no complaint, and these each make one. */
  lemma {:induction false} ErrorsExactly(cfg: Config, p: Parser, block: Data)
    requires Sensible(p.armed) && !Halted(p.armed) && |block| == Expected(cfg, p.armed)
    ensures ProtocolError in React(cfg, p, block).calls <==> Faulty(cfg, p, block)
  {
    hide U16, U32, I32, RreSubrects, PlainSubrects, ColouredSubrects, LastColour, Colours, NextTile, NextRectangle;
    hide HandleRectangle, HandleTile, HandleParts, FinishZrle, HandleZrle, Paints;
    match p.armed {
      case Message => 
      case UpdateHeader => MoreWithoutError(p.(left := U16(block[1..3]), rects := []), [BeginUpdate(U16(block[1..3]))]);
      case RectHeader => HeaderErrors(cfg, p, HeaderRect(block), I32(block[8..12]));
      case RawBody(r) => MoreWithoutError(p, [UpdateRectangle(r, block)]);
      case CopyBody(r) => MoreWithoutError(p, [CopyRectangle(U16(block[0..2]), U16(block[2..4]), r)]);
      case RreHeader(r) => MoreWithoutError(p, [FillRectangle(r, Some(block[4..]))]);
      case CorreHeader(r) => MoreWithoutError(p, [FillRectangle(r, Some(block[4..]))]);
      case RreBody(r, _) =>
        RrePaints(cfg.bypp, r.x, r.y, block);
        PaintsAreNoErrors(RreSubrects(cfg.bypp, r.x, r.y, block));
        MoreWithoutError(p, RreSubrects(cfg.bypp, r.x, r.y, block));
      case ZrleBody(r, _) => ZrleWithoutError(cfg, p, r, block);
      case CursorBody(r) =>
        var split := CursorPixels(cfg, r);
        MoreWithoutError(p, [UpdateCursor(r, block[..split], block[split..])]);
      case HexTile(t) => HexWithoutError(cfg, p, t, block);
      case HexRaw(t) => TileWithoutError(p, t, [UpdateRectangle(t.Area(), block)]);
      case HexParts(t, _) => HexWithoutError(cfg, p, t, block);
      case HexColoured(t, _) =>
        ColouredPaints(cfg.bypp, t.tx, t.ty, block);
        PaintsAreNoErrors(ColouredSubrects(cfg.bypp, t.tx, t.ty, block));
        TileWithoutError(p, t.(fg := LastColour(cfg.bypp, t.fg, block)), ColouredSubrects(cfg.bypp, t.tx, t.ty, block));
      case HexPlain(t, _) =>
        PlainPaints(t.tx, t.ty, t.fg, block);
        PaintsAreNoErrors(PlainSubrects(t.tx, t.ty, t.fg, block));
        TileWithoutError(p, t, PlainSubrects(t.tx, t.ty, t.fg, block));
      case _ =>
    }
  }

  lemma {:induction false} HexWithoutError(cfg: Config, p: Parser, t: Tile, block: Data)
    requires t.Placed() && (p.armed.HexTile? || p.armed.HexParts?) && p.armed.tile == t
    requires |block| == Expected(cfg, p.armed)
    ensures ProtocolError !in React(cfg, p, block).calls
  {
    hide NextTile, Flagged;
    TileWithoutError(p, t, [FillRectangle(t.Area(), t.bg)]);
    if p.armed.HexParts? {
      var flags := p.armed.flags;
      var bg := if Flagged(flags, 2) then Some(block[..cfg.bypp]) else t.bg;
      var pos := if Flagged(flags, 2) then cfg.bypp else 0;
      var fg := if Flagged(flags, 4) then Some(block[pos..pos + cfg.bypp]) else t.fg;
      TileWithoutError(p, t.(bg := bg, fg := fg), [FillRectangle(t.Area(), bg)]);
    }
  }

  lemma {:induction false} ZrleWithoutError(cfg: Config, p: Parser, r: Rect, block: Data)
    ensures ProtocolError !in HandleZrle(cfg, p, r, block).calls
  {
    hide PaintCall, Zrle.Decode, NextRectangle, Paints;
    if cfg.inflate(p.zipped, block).Some? {
      var d := Zrle.Decode(r, r.x, r.y, cfg.inflate(p.zipped, block).value);
      TilesPaint(d.paints);
      PaintsAreNoErrors(PaintCalls(d.paints));
      MoreWithoutError(p.(zipped := p.zipped + block), PaintCalls(d.paints));
    }
  }

  lemma {:induction false} HeaderErrors(cfg: Config, p: Parser, r: Rect, encoding: int)
    requires p.armed == RectHeader && r.w < 0x1_0000 && r.h < 0x1_0000
    ensures ProtocolError in HandleRectangle(cfg, p, r, encoding).calls <==>
            && p.left > 0
            && (encoding !in ServerMessages.KNOWN ||
                (encoding == RAW && ((cfg.width != 0 && cfg.width < r.w) || (cfg.height != 0 && cfg.height < r.h))))
  {
  }
}
