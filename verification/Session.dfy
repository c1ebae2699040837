/**
  The session side of `RFBClient` (vncdotool/rfb.py): the `expect` engine, the message and
  rectangle loop, the pump, and the RRE and Hextile decoders, as one machine that reads
  bytes and makes callbacks.
 */
module Session {
  import opened Bytes
  import opened Tiling
  import Zrle

  const RAW := 0
  const COPY_RECTANGLE := 1
  const RRE := 2
  const CORRE := 4
  const HEXTILE := 5
  const ZRLE := 16
  const PSEUDO_DESKTOP_SIZE := -223
  const PSEUDO_LAST_RECT := -224
  const PSEUDO_CURSOR := -239
  const PSEUDO_QEMU_EXTENDED_KEY_EVENT := -258
  const MAX_DESKTOP_SIZE := 0x1_0000

  /** What an application overriding the client's hooks gets to see. `Header` is the line logged
      for each rectangle; `ProtocolError` stands for vncProtocolError and loseConnection together. */
  datatype Callback =
    | BeginUpdate(count: nat)
    | Header(rect: Rect, encoding: int)
    | CommitUpdate(rects: seq<Rect>)
    | UpdateRectangle(rect: Rect, pixels: Data)
    | FillRectangle(rect: Rect, color: Option<Data>)
    | CopyRectangle(srcx: nat, srcy: nat, rect: Rect)
    | UpdateCursor(rect: Rect, image: Data, mask: Data)
    | UpdateDesktopSize(width: nat, height: nat)
    | QemuKeysNegotiated
    /** A ZRLE tile below its rectangle: the paint hook is called with a size that is not positive. */
    | PaintOutside(paint: Zrle.Paint)
    | SetColorMap(first: nat, colors: seq<(nat, nat, nat)>)
    | Bell
    | CopyText(text: Data)
    | ProtocolError

  /** Fixed once the server name has been read: bytes per pixel, the framebuffer's size, and what zlib
      makes of a block after all the blocks before it. None is its error. */
  datatype Config = Config(bypp: nat, width: nat, height: nat, inflate: (Data, Data) -> Option<Data>)

  /** A Hextile tile about to be read, with the colours carried over so far. */
  datatype Tile = Tile(rect: Rect, tx: nat, ty: nat, bg: Option<Data>, fg: Option<Data>) {
    predicate Placed() {
      rect.x <= tx <= rect.x + rect.w && rect.y <= ty < rect.y + rect.h
    }

    /** 16x16, clipped to the rectangle. */
    function Area(): (r: Rect)
      requires Placed()
      ensures r.w <= 16 && 0 < r.h <= 16
    {
      Rect(tx, ty,
           if rect.x + rect.w - tx < 16 then rect.x + rect.w - tx else 16,
           if rect.y + rect.h - ty < 16 then rect.y + rect.h - ty else 16)
    }
  }

  /** `_expected_handler` with its arguments. */
  datatype Handler =
    | Message
    | UpdateHeader
    | ColourHeader
    | ColourBody(first: nat, count: nat)
    | CutHeader
    | CutBody(length: nat)
    | RectHeader
    | RawBody(rect: Rect)
    | CopyBody(rect: Rect)
    | RreHeader(rect: Rect)
    | RreBody(rect: Rect, subrects: nat)
    | CorreHeader(rect: Rect)
    | CorreBody(subrects: nat)
    | HexTile(tile: Tile)
    | HexRaw(tile: Tile)
    | HexParts(tile: Tile, flags: Byte)
    | HexColoured(tile: Tile, subrects: nat)
    | HexPlain(tile: Tile, subrects: nat)
    | ZrleHeader(rect: Rect)
    | ZrleBody(rect: Rect, length: nat)
    | CursorBody(rect: Rect)
    | Aborted
    | Crashed

  predicate Halted(h: Handler) {
    h.Aborted? || h.Crashed?
  }

  /** Hextile handlers know a tile inside its rectangle. */
  predicate Sensible(h: Handler) {
    h.HexTile? || h.HexRaw? || h.HexParts? || h.HexColoured? || h.HexPlain? ==> h.tile.Placed()
  }

  predicate Flagged(flags: Byte, mask: nat)
    requires mask in {1, 2, 4, 8, 16}
  {
    flags / mask % 2 == 1
  }

  /** The bytes that follow a non-raw tile's flags: colours, then the subrectangle count. */
  function PartsLength(bypp: nat, flags: Byte): nat {
    (if Flagged(flags, 2) then bypp else 0) + (if Flagged(flags, 4) then bypp else 0)
    + (if Flagged(flags, 8) then 1 else 0)
  }

  /** `_expected_len`. */
  function Expected(cfg: Config, h: Handler): nat
    requires Sensible(h) && !Halted(h)
  {
    match h
    case Message => 1
    case UpdateHeader => 3
    case ColourHeader => 5
    case ColourBody(_, count) => 6 * count
    case CutHeader => 7
    case CutBody(length) => length
    case RectHeader => 12
    case RawBody(r) => r.w * r.h * cfg.bypp
    case CopyBody(_) => 4
    case RreHeader(_) => 4 + cfg.bypp
    case RreBody(_, subrects) => (8 + cfg.bypp) * subrects
    case CorreHeader(_) => 4 + cfg.bypp
    case CorreBody(subrects) => (4 + cfg.bypp) * subrects
    case HexTile(_) => 1
    case HexRaw(t) => t.Area().w * t.Area().h * cfg.bypp
    case HexParts(_, flags) => PartsLength(cfg.bypp, flags)
    case HexColoured(_, subrects) => (cfg.bypp + 2) * subrects
    case HexPlain(_, subrects) => 2 * subrects
    case ZrleHeader(_) => 4
    case ZrleBody(_, length) => length
    case CursorBody(r) => CursorPixels(cfg, r) + (r.w + 7) / 8 * r.h
  }

  function CursorPixels(cfg: Config, r: Rect): nat { r.w * r.h * cfg.bypp }

  // ----- the parser's fields -----

  /** `zipped` is what the connection's one zlib stream has been given. */
  datatype Parser = Parser(armed: Handler, left: nat, rects: seq<Rect>, zipped: Data)

  datatype Reaction = Reaction(parser: Parser, calls: seq<Callback>)

  function I32(s: Data): int
    requires |s| == 4
  {
    if U32(s) < 0x8000_0000 then U32(s) else U32(s) as int - 0x1_0000_0000
  }

  /** `_doConnection`: on to the next rectangle, or close the update. */
  function NextRectangle(p: Parser, calls: seq<Callback>): (r: Reaction)
    ensures r.parser.armed == RectHeader || r.parser.armed == Message
  {
    if p.left > 0 then Reaction(p.(armed := RectHeader), calls)
    else Reaction(p.(armed := Message), calls + [CommitUpdate(p.rects)])
  }

  /** `_handleConnection`. */
  function HandleMessage(p: Parser, kind: Byte): Reaction {
    if kind == 0 then Reaction(p.(armed := UpdateHeader), [])
    else if kind == 1 then Reaction(p.(armed := ColourHeader), [])
    else if kind == 2 then Reaction(p.(armed := Message), [Bell])
    else if kind == 3 then Reaction(p.(armed := CutHeader), [])
    else Reaction(p, [ProtocolError])
  }

  /** `_rectBuffer`: whether a rectangle fits the framebuffer; an unknown size refuses nothing. */
  predicate Fits(cfg: Config, r: Rect) {
    && r.w <= (if cfg.width == 0 then MAX_DESKTOP_SIZE else cfg.width)
    && r.h <= (if cfg.height == 0 then MAX_DESKTOP_SIZE else cfg.height)
  }

  /** `_handleRectangle`. */
  function HandleRectangle(cfg: Config, p: Parser, r: Rect, encoding: int): (s: Reaction)
    requires p.armed == RectHeader
    ensures Sensible(s.parser.armed)
  {
    var log := [Header(r, encoding)];
    if encoding == PSEUDO_LAST_RECT || p.left == 0 then
      NextRectangle(p.(left := if encoding == PSEUDO_LAST_RECT then 0 else p.left), log)
    else
      var q := p.(left := p.left - 1);
      var painted := q.(rects := q.rects + [r]);
      if encoding == RAW then
        if Fits(cfg, r) then Reaction(painted.(armed := RawBody(r)), log)
        else Reaction(painted.(armed := Aborted), log + [ProtocolError])
      else if encoding == COPY_RECTANGLE then Reaction(painted.(armed := CopyBody(r)), log)
      else if encoding == HEXTILE then
        if r.h == 0 then NextRectangle(painted, log)
        else Reaction(painted.(armed := HexTile(Tile(r, r.x, r.y, None, None))), log)
      else if encoding == CORRE then Reaction(painted.(armed := CorreHeader(r)), log)
      else if encoding == RRE then Reaction(painted.(armed := RreHeader(r)), log)
      else if encoding == ZRLE then Reaction(painted.(armed := ZrleHeader(r)), log)
      else if encoding == PSEUDO_CURSOR then Reaction(painted.(armed := CursorBody(r)), log)
      else if encoding == PSEUDO_DESKTOP_SIZE then NextRectangle(q, log + [UpdateDesktopSize(r.w, r.h)])
      else if encoding == PSEUDO_QEMU_EXTENDED_KEY_EVENT then NextRectangle(q, log + [QemuKeysNegotiated])
      else Reaction(painted, log + [ProtocolError])
  }

  // ----- decoders -----

  /** The subrectangles of an RRE body, in the order they are painted. */
  function RreSubrects(bypp: nat, topx: nat, topy: nat, block: Data): seq<Callback> {
    if |block| < bypp + 8 then []
    else
      var b := block[bypp..bypp + 8];
      [FillRectangle(Rect(topx + U16(b[0..2]), topy + U16(b[2..4]), U16(b[4..6]), U16(b[6..8])), Some(block[..bypp]))]
      + RreSubrects(bypp, topx, topy, block[bypp + 8..])
  }

  /** Two bytes: position in the tile, size less one. */
  function Subrect(tx: nat, ty: nat, xy: Byte, wh: Byte): Rect {
    Rect(tx + xy / 16, ty + xy % 16, wh / 16 + 1, wh % 16 + 1)
  }

  function PlainSubrects(tx: nat, ty: nat, color: Option<Data>, block: Data): seq<Callback> {
    if |block| < 2 then []
    else
      [FillRectangle(Subrect(tx, ty, block[0], block[1]), color)] + PlainSubrects(tx, ty, color, block[2..])
  }

  function ColouredSubrects(bypp: nat, tx: nat, ty: nat, block: Data): seq<Callback> {
    if |block| < bypp + 2 then []
    else
      [FillRectangle(Subrect(tx, ty, block[bypp], block[bypp + 1]), Some(block[..bypp]))]
      + ColouredSubrects(bypp, tx, ty, block[bypp + 2..])
  }

  /** The colour a run of coloured subrectangles leaves behind as the foreground. */
  function LastColour(bypp: nat, color: Option<Data>, block: Data): Option<Data>
    decreases |block|
  {
    if |block| < bypp + 2 then color
    else LastColour(bypp, Some(block[..bypp]), block[bypp + 2..])
  }

  /** `_doNextHextileSubrect` after tile `t`. */
  function NextTile(p: Parser, t: Tile, calls: seq<Callback>): (r: Reaction)
    requires t.Placed()
    ensures Sensible(r.parser.armed)
    ensures r.parser.armed.HexTile? || r.parser.armed == RectHeader || r.parser.armed == Message
  {
    var right := t.tx + 16;
    var u := if right >= t.rect.x + t.rect.w then t.(tx := t.rect.x, ty := t.ty + 16) else t.(tx := right);
    if u.ty >= u.rect.y + u.rect.h then NextRectangle(p, calls)
    else Reaction(p.(armed := HexTile(u)), calls)
  }

  /** `_handleDecodeHextile`. */
  function HandleTile(cfg: Config, p: Parser, t: Tile, flags: Byte): (r: Reaction)
    requires t.Placed()
    ensures Sensible(r.parser.armed)
  {
    if Flagged(flags, 1) then Reaction(p.(armed := HexRaw(t)), [])
    else if PartsLength(cfg.bypp, flags) != 0 then Reaction(p.(armed := HexParts(t, flags)), [])
    else NextTile(p, t, [FillRectangle(t.Area(), t.bg)])
  }

  /** `_handleDecodeHextileSubrect`. */
  function HandleParts(cfg: Config, p: Parser, t: Tile, flags: Byte, block: Data): (r: Reaction)
    requires t.Placed() && |block| == PartsLength(cfg.bypp, flags)
    ensures Sensible(r.parser.armed)
  {
    var bg := if Flagged(flags, 2) then Some(block[..cfg.bypp]) else t.bg;
    var pos := if Flagged(flags, 2) then cfg.bypp else 0;
    var fg := if Flagged(flags, 4) then Some(block[pos..pos + cfg.bypp]) else t.fg;
    var pos' := if Flagged(flags, 4) then pos + cfg.bypp else pos;
    var subrects := if Flagged(flags, 8) then block[pos'] else 0;
    var u := t.(bg := bg, fg := fg);
    var fill := [FillRectangle(t.Area(), bg)];
    if subrects == 0 then NextTile(p, u, fill)
    else if Flagged(flags, 16) then Reaction(p.(armed := HexColoured(u, subrects)), fill)
    else Reaction(p.(armed := HexPlain(u, subrects)), fill)
  }

  function PaintCall(paint: Zrle.Paint): Callback {
    if paint.w < 0 || paint.h < 0 then PaintOutside(paint)
    else
      var area := Rect(paint.x, paint.y, paint.w, paint.h);
      if paint.Pixels? then UpdateRectangle(area, paint.data) else FillRectangle(area, Some(paint.color))
  }

  function PaintCalls(paints: seq<Zrle.Paint>): (calls: seq<Callback>)
    ensures |calls| == |paints|
  {
    seq(|paints|, i requires 0 <= i < |paints| => PaintCall(paints[i]))
  }

  /** The end of `_handleDecodeZRLEdata`: an exception ends the session behind the tiles painted so far. */
  function FinishZrle(p: Parser, d: Zrle.Decoded): (r: Reaction)
    ensures r.parser.armed == RectHeader || r.parser.armed == Message || r.parser.armed == Crashed
  {
    if d.error.Some? then Reaction(p.(armed := Crashed), PaintCalls(d.paints))
    else NextRectangle(p, PaintCalls(d.paints))
  }

  /** `_handleDecodeZRLEdata`. */
  function HandleZrle(cfg: Config, p: Parser, r: Rect, block: Data): (a: Reaction)
    ensures a.parser.armed == RectHeader || a.parser.armed == Message || a.parser.armed == Crashed
  {
    match cfg.inflate(p.zipped, block)
    case None => Reaction(p.(armed := Crashed), [])
    case Some(data) => FinishZrle(p.(zipped := p.zipped + block), Zrle.Decode(r, r.x, r.y, data))
  }

  function Colours(block: Data): seq<(nat, nat, nat)> {
    if |block| < 6 then []
    else [(U16(block[0..2]), U16(block[2..4]), U16(block[4..6]))] + Colours(block[6..])
  }

  /** One call of the armed handler. */
  function React(cfg: Config, p: Parser, block: Data): (r: Reaction)
    requires Sensible(p.armed) && !Halted(p.armed) && |block| == Expected(cfg, p.armed)
    ensures Sensible(r.parser.armed)
  {
    match p.armed
    case Message => HandleMessage(p, block[0])
    case UpdateHeader =>
      var count := U16(block[1..3]);
      NextRectangle(p.(left := count, rects := []), [BeginUpdate(count)])
    case ColourHeader => Reaction(p.(armed := ColourBody(U16(block[1..3]), U16(block[3..5]))), [])
    case ColourBody(first, _) => Reaction(p.(armed := Message), [SetColorMap(first, Colours(block))])
    case CutHeader => Reaction(p.(armed := CutBody(U32(block[3..7]))), [])
    case CutBody(_) => Reaction(p.(armed := Message), [CopyText(block)])
    case RectHeader =>
      HandleRectangle(cfg, p, Rect(U16(block[0..2]), U16(block[2..4]), U16(block[4..6]), U16(block[6..8])),
                      I32(block[8..12]))
    case RawBody(r) => NextRectangle(p, [UpdateRectangle(r, block)])
    case CopyBody(r) => NextRectangle(p, [CopyRectangle(U16(block[0..2]), U16(block[2..4]), r)])
    case RreHeader(r) =>
      var fill := [FillRectangle(r, Some(block[4..]))];
      if U32(block[..4]) == 0 then NextRectangle(p, fill)
      else Reaction(p.(armed := RreBody(r, U32(block[..4]))), fill)
    case RreBody(r, _) => NextRectangle(p, RreSubrects(cfg.bypp, r.x, r.y, block))
    case CorreHeader(r) =>
      var fill := [FillRectangle(r, Some(block[4..]))];
      if U32(block[..4]) == 0 then NextRectangle(p, fill)
      else Reaction(p.(armed := CorreBody(U32(block[..4]))), fill)
    // The format string of this handler is not one, so struct.unpack raises.
    case CorreBody(_) => Reaction(p.(armed := Crashed), [])
    case HexTile(t) => HandleTile(cfg, p, t, block[0])
    case HexRaw(t) => NextTile(p, t, [UpdateRectangle(t.Area(), block)])
    case HexParts(t, flags) => HandleParts(cfg, p, t, flags, block)
    case HexColoured(t, _) =>
      NextTile(p, t.(fg := LastColour(cfg.bypp, t.fg, block)), ColouredSubrects(cfg.bypp, t.tx, t.ty, block))
    case HexPlain(t, _) => NextTile(p, t, PlainSubrects(t.tx, t.ty, t.fg, block))
    case ZrleHeader(r) => Reaction(p.(armed := ZrleBody(r, U32(block))), [])
    case ZrleBody(r, _) => HandleZrle(cfg, p, r, block)
    case CursorBody(r) =>
      var split := CursorPixels(cfg, r);
      NextRectangle(p, [UpdateCursor(r, block[..split], block[split..])])
  }

  /** No two zero-length handlers follow each other. */
  lemma {:induction false} ZeroIsNeverTwice(cfg: Config, p: Parser, block: Data)
    requires Sensible(p.armed) && !Halted(p.armed) && |block| == Expected(cfg, p.armed) == 0
    ensures var q := React(cfg, p, block).parser; !Halted(q.armed) ==> Expected(cfg, q.armed) > 0
  {
    hide U16, U32, I32, RreSubrects, PlainSubrects, ColouredSubrects, LastColour, Colours;
    hide NextTile, NextRectangle, HandleRectangle, HandleZrle;
  }
}
