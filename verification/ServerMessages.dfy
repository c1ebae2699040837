/**
  Server-to-client messages (section 7.6 of RFC 6143): an encoder for whole sessions, and the
  proof that the client's parser (vncdotool/rfb.py) reads back every message it prints and
  makes exactly the callbacks the message stands for.
 */
module ServerMessages {
  import opened Bytes
  import opened Session
  import opened Parsing
  import opened Tiling
  import Hextile
  import Zrle
  import ZrleRoundTrip

  /** An RRE subrectangle, relative to its rectangle. */
  datatype RreSub = RreSub(color: Data, x: nat, y: nat, w: nat, h: nat)

  datatype RectSpec =
    | RawRect(rect: Rect, pixels: Data)
    | CopyRect(rect: Rect, srcx: nat, srcy: nat)
    | RreRect(rect: Rect, bg: Data, subs: seq<RreSub>)
    /** CoRRE without subrectangles; `CorreSubrectsCrash` says what becomes of any others. */
    | CorreRect(rect: Rect, bg: Data)
    | HextileRect(rect: Rect, tiles: seq<Hextile.TileSpec>)
    /** Its tiles, and the block that zlib must inflate to them (`Inflates`). */
    | ZrleRect(rect: Rect, zrle: seq<ZrleRoundTrip.TileSpec>, compressed: Data)
    | CursorRect(rect: Rect, image: Data, mask: Data)
    | DesktopSizeRect(rect: Rect)
    | QemuKeyRect(rect: Rect)

  datatype ServerMessage =
    | BellMessage
    | CutText(text: Data)
    | ColourMap(first: nat, colors: seq<(nat, nat, nat)>)
    | Update(rects: seq<RectSpec>)
    /** More rectangles announced than sent: LastRect ends the update. */
    | OpenUpdate(count: nat, early: seq<RectSpec>, last: Rect)

  // ----- what may be printed -----

  predicate Small(r: Rect) { r.x < 0x1_0000 && r.y < 0x1_0000 && r.w < 0x1_0000 && r.h < 0x1_0000 }

  predicate GoodSub(bypp: nat, s: RreSub) {
    |s.color| == bypp && s.x < 0x1_0000 && s.y < 0x1_0000 && s.w < 0x1_0000 && s.h < 0x1_0000
  }

  predicate GoodSubs(bypp: nat, subs: seq<RreSub>) {
    forall i :: 0 <= i < |subs| ==> GoodSub(bypp, subs[i])
  }

  predicate GoodRect(cfg: Config, s: RectSpec) {
    && Small(s.rect)
    && match s
       case RawRect(r, pixels) => Fits(cfg, r) && |pixels| == r.w * r.h * cfg.bypp
       case CopyRect(_, srcx, srcy) => srcx < 0x1_0000 && srcy < 0x1_0000
       case RreRect(_, bg, subs) => |bg| == cfg.bypp && |subs| < 0x1_0000_0000 && GoodSubs(cfg.bypp, subs)
       case CorreRect(_, bg) => |bg| == cfg.bypp
       case HextileRect(r, tiles) => Hextile.AllWellFormed(cfg.bypp, tiles, Tiles(16, r))
       case ZrleRect(r, tiles, compressed) =>
         |compressed| < 0x1_0000_0000 && ZrleRoundTrip.AllWellFormed(tiles, Tiles(64, r))
       case CursorRect(r, image, mask) => |image| == r.w * r.h * cfg.bypp && |mask| == (r.w + 7) / 8 * r.h
       case DesktopSizeRect(_) => true
       case QemuKeyRect(_) => true
  }

  predicate GoodRects(cfg: Config, rects: seq<RectSpec>) {
    forall i :: 0 <= i < |rects| ==> GoodRect(cfg, rects[i])
  }

  predicate GoodColours(colors: seq<(nat, nat, nat)>) {
    forall i :: 0 <= i < |colors| ==> colors[i].0 < 0x1_0000 && colors[i].1 < 0x1_0000 && colors[i].2 < 0x1_0000
  }

  predicate Good(cfg: Config, m: ServerMessage) {
    match m
    case BellMessage => true
    case CutText(text) => |text| < 0x1_0000_0000
    case ColourMap(first, colors) => first < 0x1_0000 && |colors| < 0x1_0000 && GoodColours(colors)
    case Update(rects) => |rects| < 0x1_0000 && GoodRects(cfg, rects)
    case OpenUpdate(count, early, last) => |early| < count < 0x1_0000 && GoodRects(cfg, early) && Small(last)
  }

  // ----- what zlib must do -----

  /** A ZRLE block, coming after the blocks `zipped`, inflates to its tiles. */
  predicate Inflates(cfg: Config, zipped: Data, s: RectSpec)
    requires GoodRect(cfg, s)
  {
    s.ZrleRect? ==>
      cfg.inflate(zipped, s.compressed) == Some(ZrleRoundTrip.PrintTiles(s.zrle, Tiles(64, s.rect)))
  }

  function Zipped(zipped: Data, s: RectSpec): Data {
    if s.ZrleRect? then zipped + s.compressed else zipped
  }

  function ZippedAll(zipped: Data, rects: seq<RectSpec>): Data
    decreases |rects|
  {
    if rects == [] then zipped else ZippedAll(Zipped(zipped, rects[0]), rects[1..])
  }

  predicate RectsInflate(cfg: Config, zipped: Data, rects: seq<RectSpec>)
    requires GoodRects(cfg, rects)
    decreases |rects|
  {
    rects == [] ||
    (Inflates(cfg, zipped, rects[0]) && RectsInflate(cfg, Zipped(zipped, rects[0]), rects[1..]))
  }

  function RectsOf(m: ServerMessage): seq<RectSpec> {
    match m
    case Update(rects) => rects
    case OpenUpdate(_, early, _) => early
    case _ => []
  }

  // ----- printing -----

  function PutI32(n: int): (s: Data)
    requires -0x8000_0000 <= n < 0x8000_0000
    ensures |s| == 4 && I32(s) == n
  {
    PutU32(if n < 0 then n + 0x1_0000_0000 else n)
  }

  function PutRect(r: Rect): (s: Data)
    requires Small(r)
    ensures |s| == 8
  {
    (PutU16(r.x) + PutU16(r.y)) + (PutU16(r.w) + PutU16(r.h))
  }

  function EncodingOf(s: RectSpec): (e: int)
    ensures -0x8000_0000 <= e < 0x8000_0000
  {
    match s
    case RawRect(_, _) => RAW
    case CopyRect(_, _, _) => COPY_RECTANGLE
    case RreRect(_, _, _) => RRE
    case CorreRect(_, _) => CORRE
    case HextileRect(_, _) => HEXTILE
    case ZrleRect(_, _, _) => ZRLE
    case CursorRect(_, _, _) => PSEUDO_CURSOR
    case DesktopSizeRect(_) => PSEUDO_DESKTOP_SIZE
    case QemuKeyRect(_) => PSEUDO_QEMU_EXTENDED_KEY_EVENT
  }

  function PrintSub(bypp: nat, s: RreSub): (d: Data)
    requires GoodSub(bypp, s)
    ensures |d| == bypp + 8
  {
    s.color + PutRect(Rect(s.x, s.y, s.w, s.h))
  }

  function PrintSubs(bypp: nat, subs: seq<RreSub>): (d: Data)
    requires GoodSubs(bypp, subs)
    ensures |d| == (8 + bypp) * |subs|
  {
    if subs == [] then []
    else
      assert (8 + bypp) * |subs| == (8 + bypp) + (8 + bypp) * |subs[1..]|;
      PrintSub(bypp, subs[0]) + PrintSubs(bypp, subs[1..])
  }

  /** What follows a rectangle's header. */
  function PrintBody(cfg: Config, s: RectSpec): Data
    requires GoodRect(cfg, s)
  {
    match s
    case RawRect(_, pixels) => pixels
    case CopyRect(_, srcx, srcy) => PutU16(srcx) + PutU16(srcy)
    case RreRect(_, bg, subs) => (PutU32(|subs|) + bg) + PrintSubs(cfg.bypp, subs)
    case CorreRect(_, bg) => PutU32(0) + bg
    case HextileRect(r, tiles) => Hextile.PrintTiles(cfg.bypp, tiles, Tiles(16, r))
    case ZrleRect(_, _, compressed) => PutU32(|compressed|) + compressed
    case CursorRect(_, image, mask) => image + mask
    case DesktopSizeRect(_) => []
    case QemuKeyRect(_) => []
  }

  function PrintHeader(r: Rect, encoding: int): (d: Data)
    requires Small(r) && -0x8000_0000 <= encoding < 0x8000_0000
    ensures |d| == 12
  {
    PutRect(r) + PutI32(encoding)
  }

  function PrintRects(cfg: Config, rects: seq<RectSpec>): Data
    requires GoodRects(cfg, rects)
  {
    if rects == [] then []
    else (PrintHeader(rects[0].rect, EncodingOf(rects[0])) + PrintBody(cfg, rects[0])) + PrintRects(cfg, rects[1..])
  }

  function PrintColours(colors: seq<(nat, nat, nat)>): (d: Data)
    requires GoodColours(colors)
    ensures |d| == 6 * |colors|
  {
    if colors == [] then []
    else (PutU16(colors[0].0) + (PutU16(colors[0].1) + PutU16(colors[0].2))) + PrintColours(colors[1..])
  }

  function Print(cfg: Config, m: ServerMessage): Data
    requires Good(cfg, m)
  {
    match m
    case BellMessage => [2]
    case CutText(text) => [3] + (([0, 0, 0] + PutU32(|text|)) + text)
    case ColourMap(first, colors) => [1] + (([0] + (PutU16(first) + PutU16(|colors|))) + PrintColours(colors))
    case Update(rects) => [0] + (([0] + PutU16(|rects|)) + PrintRects(cfg, rects))
    case OpenUpdate(count, early, last) =>
      [0] + (([0] + PutU16(count)) + (PrintRects(cfg, early) + PrintHeader(last, PSEUDO_LAST_RECT)))
  }

  // ----- meaning -----

  function SubPaints(rect: Rect, subs: seq<RreSub>): seq<Callback> {
    seq(|subs|, i requires 0 <= i < |subs| =>
          FillRectangle(Rect(rect.x + subs[i].x, rect.y + subs[i].y, subs[i].w, subs[i].h), Some(subs[i].color)))
  }

  /** What a ZRLE tile shows: one colour all over, or the colour of each pixel. */
  function TileShown(t: ZrleRoundTrip.TileSpec, area: Rect): Callback
    requires ZrleRoundTrip.WellFormed(t, area)
  {
    if t.SolidTile? then FillRectangle(area, Some(ZrleRoundTrip.Opaque(t.color)))
    else UpdateRectangle(area, ZrleRoundTrip.Flat(ZrleRoundTrip.PixelsOf(t, area)))
  }

  function TilesShown(tiles: seq<ZrleRoundTrip.TileSpec>, areas: seq<Rect>): seq<Callback>
    requires ZrleRoundTrip.AllWellFormed(tiles, areas)
  {
    seq(|tiles|, i requires 0 <= i < |tiles| => TileShown(tiles[i], areas[i]))
  }

  lemma {:induction false} PaintsShow(tiles: seq<ZrleRoundTrip.TileSpec>, areas: seq<Rect>)
    requires ZrleRoundTrip.AllWellFormed(tiles, areas)
    ensures PaintCalls(ZrleRoundTrip.PaintsOf(tiles, areas)) == TilesShown(tiles, areas)
  {
    hide ZrleRoundTrip.WellFormed, ZrleRoundTrip.PixelsOf, ZrleRoundTrip.Flat, ZrleRoundTrip.Opaque;
  }

  /** What a rectangle shows. */
  function RectCalls(s: RectSpec): seq<Callback>
    requires s.HextileRect? ==> |s.tiles| == |Tiles(16, s.rect)|
    requires s.ZrleRect? ==> ZrleRoundTrip.AllWellFormed(s.zrle, Tiles(64, s.rect))
  {
    match s
    case RawRect(r, pixels) => [UpdateRectangle(r, pixels)]
    case CopyRect(r, srcx, srcy) => [CopyRectangle(srcx, srcy, r)]
    case RreRect(r, bg, subs) => [FillRectangle(r, Some(bg))] + SubPaints(r, subs)
    case CorreRect(r, bg) => [FillRectangle(r, Some(bg))]
    case HextileRect(r, tiles) => Hextile.AllPaints(tiles, Tiles(16, r), None, None)
    case ZrleRect(r, tiles, _) => TilesShown(tiles, Tiles(64, r))
    case CursorRect(r, image, mask) => [UpdateCursor(r, image, mask)]
    case DesktopSizeRect(r) => [UpdateDesktopSize(r.w, r.h)]
    case QemuKeyRect(_) => [QemuKeysNegotiated]
  }

  predicate ShowsPixels(s: RectSpec) { !s.DesktopSizeRect? && !s.QemuKeyRect? }

  function Listed(rects: seq<RectSpec>): seq<Rect> {
    if rects == [] then [] else (if ShowsPixels(rects[0]) then [rects[0].rect] else []) + Listed(rects[1..])
  }

  /** Its header, and what it shows. */
  function RectTrace(cfg: Config, s: RectSpec): seq<Callback>
    requires GoodRect(cfg, s)
  {
    [Header(s.rect, EncodingOf(s))] + RectCalls(s)
  }

  function RectsCalls(cfg: Config, rects: seq<RectSpec>): seq<Callback>
    requires GoodRects(cfg, rects)
  {
    if rects == [] then [] else RectTrace(cfg, rects[0]) + RectsCalls(cfg, rects[1..])
  }

  /** The callbacks a message stands for. */
  function Calls(cfg: Config, m: ServerMessage): seq<Callback>
    requires Good(cfg, m)
  {
    match m
    case BellMessage => [Bell]
    case CutText(text) => [CopyText(text)]
    case ColourMap(first, colors) => [SetColorMap(first, colors)]
    case Update(rects) =>
      [BeginUpdate(|rects|)] + (RectsCalls(cfg, rects) + [CommitUpdate(Listed(rects))])
    case OpenUpdate(count, early, last) =>
      [BeginUpdate(count)] + (RectsCalls(cfg, early) + [Header(last, PSEUDO_LAST_RECT), CommitUpdate(Listed(early))])
  }

  // ----- pieces -----

  lemma {:induction false} RectReadsBack(r: Rect, more: Data)
    requires Small(r)
    ensures var d := PutRect(r) + more;
            Rect(U16(d[0..2]), U16(d[2..4]), U16(d[4..6]), U16(d[6..8])) == r && d[8..] == more
  {
    hide U16, PutU16;
    var d := PutRect(r) + more;
    assert d[0..2] == PutU16(r.x);
    assert d[2..4] == PutU16(r.y);
    assert d[4..6] == PutU16(r.w);
    assert d[6..8] == PutU16(r.h);
  }

  /** A printed header is handled as the rectangle and encoding it announces. */
  lemma {:induction false} HeaderReadsBack(cfg: Config, p: Parser, r: Rect, encoding: int)
    requires p.armed == RectHeader && Small(r) && -0x8000_0000 <= encoding < 0x8000_0000
    ensures React(cfg, p, PrintHeader(r, encoding)) == HandleRectangle(cfg, p, r, encoding)
  {
    hide HandleRectangle, PutRect, PutI32, U16, I32;
    var d := PrintHeader(r, encoding);
    RectReadsBack(r, PutI32(encoding));
    assert d[8..12] == d[8..];
  }

  lemma {:induction false} SubsReadBack(bypp: nat, rect: Rect, subs: seq<RreSub>)
    requires GoodSubs(bypp, subs)
    ensures RreSubrects(bypp, rect.x, rect.y, PrintSubs(bypp, subs)) == SubPaints(rect, subs)
    decreases |subs|
  {
    hide U16, PutRect;
    if subs != [] {
      var s, rest := subs[0], PrintSubs(bypp, subs[1..]);
      var block, place := PrintSubs(bypp, subs), PutRect(Rect(s.x, s.y, s.w, s.h));
      Associative(s.color, place, rest);
      assert block[..bypp] == s.color && block[bypp..bypp + 8] == place && block[bypp + 8..] == rest;
      assert place + [] == place;
      RectReadsBack(Rect(s.x, s.y, s.w, s.h), []);
      SubsReadBack(bypp, rect, subs[1..]);
      assert SubPaints(rect, subs) == [SubPaints(rect, subs)[0]] + SubPaints(rect, subs[1..]);
    }
  }

  lemma {:induction false} ColoursReadBack(colors: seq<(nat, nat, nat)>)
    requires GoodColours(colors)
    ensures Colours(PrintColours(colors)) == colors
    decreases |colors|
  {
    hide U16, PutU16;
    if colors != [] {
      var d := PrintColours(colors);
      assert d[0..2] == PutU16(colors[0].0);
      assert d[2..4] == PutU16(colors[0].1);
      assert d[4..6] == PutU16(colors[0].2);
      assert d[6..] == PrintColours(colors[1..]);
      ColoursReadBack(colors[1..]);
    }
  }

  lemma {:induction false} NextRectangleAppends(p: Parser, calls: seq<Callback>)
    ensures NextRectangle(p, calls) == var a := NextRectangle(p, []); a.(calls := calls + a.calls)
  {
    assert calls + [] == calls;
    assert [] + [CommitUpdate(p.rects)] == [CommitUpdate(p.rects)];
  }

  /** A handler that finishes its rectangle with `calls`, on exactly its bytes. */
  lemma {:induction false} FinishesAs(cfg: Config, p: Parser, q: Parser, h: Handler, block: Data,
                                      calls: seq<Callback>, more: Data)
    requires Sensible(h) && !Halted(h) && |block| == Expected(cfg, h)
    requires React(cfg, p.(armed := h), block) == NextRectangle(q.(armed := h), calls)
    ensures var a := NextRectangle(q, []);
            var r := Run(cfg, a.parser, more);
            Run(cfg, p.(armed := h), block + more) == r.(trace := calls + (a.calls + r.trace))
  {
    hide React, Expected, Run;
    RunStep(cfg, p.(armed := h), block, more);
    NextRectangleAppends(q.(armed := h), calls);
    var a := NextRectangle(q, []);
    CallsAssociate(calls, a.calls, Run(cfg, a.parser, more).trace);
  }

  lemma {:induction false} Finishes(cfg: Config, p: Parser, h: Handler, block: Data, calls: seq<Callback>, more: Data)
    requires Sensible(h) && !Halted(h) && |block| == Expected(cfg, h)
    requires React(cfg, p.(armed := h), block) == NextRectangle(p.(armed := h), calls)
    ensures var a := NextRectangle(p, []);
            var r := Run(cfg, a.parser, more);
            Run(cfg, p.(armed := h), block + more) == r.(trace := calls + (a.calls + r.trace))
  {
    hide React, Expected, Run, NextRectangle;
    FinishesAs(cfg, p, p, h, block, calls, more);
  }

  /** A handler that only arms the next one. */
  lemma {:induction false} Arms(cfg: Config, p: Parser, q: Parser, block: Data, calls: seq<Callback>, more: Data)
    requires Sensible(p.armed) && !Halted(p.armed) && |block| == Expected(cfg, p.armed) && Sensible(q.armed)
    requires React(cfg, p, block) == Reaction(q, calls)
    ensures Run(cfg, p, block + more) == var r := Run(cfg, q, more); r.(trace := calls + r.trace)
  {
    hide React, Expected, Run;
    RunStep(cfg, p, block, more);
  }

  // ----- one rectangle -----

  /** The background and subrectangle count of an RRE rectangle. */
  lemma {:induction false} RreHeadReacts(cfg: Config, p: Parser, r: Rect, bg: Data, n: nat)
    requires |bg| == cfg.bypp && n < 0x1_0000_0000
    ensures var a, fill := React(cfg, p.(armed := RreHeader(r)), PutU32(n) + bg), [FillRectangle(r, Some(bg))];
            if n == 0 then a == NextRectangle(p.(armed := RreHeader(r)), fill)
            else a == Reaction(p.(armed := RreBody(r, n)), fill)
  {
    hide PutU32, U32, NextRectangle;
    var head := PutU32(n) + bg;
    assert head[..4] == PutU32(n) && head[4..] == bg;
  }

  lemma {:induction false} RreReadsBack(cfg: Config, p: Parser, rect: Rect, bg: Data, subs: seq<RreSub>, more: Data)
    requires |bg| == cfg.bypp && |subs| < 0x1_0000_0000 && GoodSubs(cfg.bypp, subs)
    ensures var a := NextRectangle(p, []);
            var r := Run(cfg, a.parser, more);
            var fill := [FillRectangle(rect, Some(bg))];
            Run(cfg, p.(armed := RreHeader(rect)), ((PutU32(|subs|) + bg) + PrintSubs(cfg.bypp, subs)) + more) ==
            r.(trace := (fill + SubPaints(rect, subs)) + (a.calls + r.trace))
  {
    hide Run, React, RreSubrects, U32, PutU32, NextRectangle, GoodSubs, SubPaints, PrintSubs;
    var head, body := PutU32(|subs|) + bg, PrintSubs(cfg.bypp, subs);
    var fill, paints := [FillRectangle(rect, Some(bg))], SubPaints(rect, subs);
    RreHeadReacts(cfg, p, rect, bg, |subs|);
    Associative(head, body, more);
    if subs == [] {
      NoSubs(cfg.bypp, rect, subs);
      assert body + more == more && fill + [] == fill;
      Finishes(cfg, p, RreHeader(rect), head, fill, more);
    } else {
      RreSubsReadBack(cfg, p, rect, bg, subs, more);
      var a := NextRectangle(p, []);
      CallsAssociate(fill, paints, a.calls + Run(cfg, a.parser, more).trace);
    }
  }

  lemma {:induction false} RreSubsReadBack(cfg: Config, p: Parser, rect: Rect, bg: Data, subs: seq<RreSub>, more: Data)
    requires |bg| == cfg.bypp && 0 < |subs| < 0x1_0000_0000 && GoodSubs(cfg.bypp, subs)
    ensures var a := NextRectangle(p, []);
            var r := Run(cfg, a.parser, more);
            Run(cfg, p.(armed := RreHeader(rect)), (PutU32(|subs|) + bg) + (PrintSubs(cfg.bypp, subs) + more)) ==
            r.(trace := [FillRectangle(rect, Some(bg))] + (SubPaints(rect, subs) + (a.calls + r.trace)))
  {
    hide Run, React, U32, PutU32, NextRectangle, GoodSubs, SubPaints, PrintSubs;
    var head, body := PutU32(|subs|) + bg, PrintSubs(cfg.bypp, subs);
    var h := RreBody(rect, |subs|);
    RreHeadReacts(cfg, p, rect, bg, |subs|);
    RreBodyReacts(cfg, p, rect, subs);
    Finishes(cfg, p, h, body, SubPaints(rect, subs), more);
    Arms(cfg, p.(armed := RreHeader(rect)), p.(armed := h), head, [FillRectangle(rect, Some(bg))], body + more);
  }

  lemma {:induction false} RreBodyReacts(cfg: Config, p: Parser, r: Rect, subs: seq<RreSub>)
    requires GoodSubs(cfg.bypp, subs)
    ensures React(cfg, p.(armed := RreBody(r, |subs|)), PrintSubs(cfg.bypp, subs)) ==
            NextRectangle(p.(armed := RreBody(r, |subs|)), SubPaints(r, subs))
  {
    hide RreSubrects, NextRectangle, GoodSubs, SubPaints, PrintSubs;
    SubsReadBack(cfg.bypp, r, subs);
  }

  lemma {:induction false} NoSubs(bypp: nat, rect: Rect, subs: seq<RreSub>)
    requires subs == []
    ensures GoodSubs(bypp, subs) && PrintSubs(bypp, subs) == [] && SubPaints(rect, subs) == []
  {
  }

  lemma {:induction false} CorreHeadReacts(cfg: Config, p: Parser, r: Rect, bg: Data, n: nat)
    requires |bg| == cfg.bypp && n < 0x1_0000_0000
    ensures var a, fill := React(cfg, p.(armed := CorreHeader(r)), PutU32(n) + bg), [FillRectangle(r, Some(bg))];
            if n == 0 then a == NextRectangle(p.(armed := CorreHeader(r)), fill)
            else a == Reaction(p.(armed := CorreBody(n)), fill)
  {
    hide PutU32, U32, NextRectangle;
    var head := PutU32(n) + bg;
    assert head[..4] == PutU32(n) && head[4..] == bg;
  }

  /** A CoRRE rectangle that does have subrectangles: once they have all come, the handler raises,
      and nothing after its background fill is ever called back. */
  lemma {:induction false} CorreSubrectsCrash(cfg: Config, p: Parser, r: Rect, bg: Data, subs: Data, n: nat, more: Data)
    requires |bg| == cfg.bypp && 0 < n < 0x1_0000_0000 && |subs| == (4 + cfg.bypp) * n
    ensures Run(cfg, p.(armed := CorreHeader(r)), (PutU32(n) + bg) + (subs + more)) ==
            Ran(p.(armed := Crashed), [], [FillRectangle(r, Some(bg))])
  {
    hide Run, U32, PutU32, NextRectangle;
    var fill, h := [FillRectangle(r, Some(bg))], CorreBody(n);
    CorreHeadReacts(cfg, p, r, bg, n);
    Arms(cfg, p.(armed := CorreHeader(r)), p.(armed := h), PutU32(n) + bg, fill, subs + more);
    Arms(cfg, p.(armed := h), p.(armed := Crashed), subs, [], more);
    Stays(cfg, p.(armed := Crashed), more);
    assert fill + [] == fill;
  }

  /** A parser that has stopped reads nothing. */
  lemma {:induction false} Stays(cfg: Config, p: Parser, more: Data)
    requires Halted(p.armed)
    ensures Run(cfg, p, more) == Ran(p, [], [])
  {
  }

  lemma {:induction false} ZrleReadsBack(cfg: Config, p: Parser, s: RectSpec, more: Data)
    requires s.ZrleRect? && GoodRect(cfg, s) && Inflates(cfg, p.zipped, s)
    ensures var a := NextRectangle(p.(zipped := p.zipped + s.compressed), []);
            var r := Run(cfg, a.parser, more);
            Run(cfg, p.(armed := ZrleHeader(s.rect)), PrintBody(cfg, s) + more) ==
            r.(trace := RectCalls(s) + (a.calls + r.trace))
  {
    hide Run, U32, PutU32, NextRectangle, PaintCalls, HandleZrle, ZrleRoundTrip.AllWellFormed, TilesShown;
    var n, q := |s.compressed|, p.(zipped := p.zipped + s.compressed);
    Associative(PutU32(n), s.compressed, more);
    var h := ZrleBody(s.rect, n);
    Arms(cfg, p.(armed := ZrleHeader(s.rect)), p.(armed := h), PutU32(n), [], s.compressed + more);
    ZrlePaints(cfg, p.(armed := h), s);
    FinishesAs(cfg, p, q, h, s.compressed, RectCalls(s), more);
    var r := Run(cfg, p.(armed := h), s.compressed + more);
    assert [] + r.trace == r.trace;
  }

  /** The inflated block is decoded to exactly the paints of its tiles. */
  lemma {:induction false} ZrlePaints(cfg: Config, p: Parser, s: RectSpec)
    requires s.ZrleRect? && GoodRect(cfg, s) && Inflates(cfg, p.zipped, s)
    ensures HandleZrle(cfg, p, s.rect, s.compressed) ==
            NextRectangle(p.(zipped := p.zipped + s.compressed), RectCalls(s))
  {
    hide NextRectangle, PaintCalls, Zrle.Decode, ZrleRoundTrip.AllWellFormed, ZrleRoundTrip.PaintsOf;
    hide ZrleRoundTrip.PrintTiles, TilesShown;
    ZrleRoundTrip.ZrleUndoesPrint(s.rect, s.zrle);
    PaintsShow(s.zrle, Tiles(64, s.rect));
  }

  /** A ZRLE block that inflates to well-formed tiles and then one that cannot be read: the tiles
      before it are painted, and nothing is called back after them, whatever follows. */
  lemma {:induction false} ZrleFailureCrashes(cfg: Config, p: Parser, rect: Rect, compressed: Data,
                                              tiles: seq<ZrleRoundTrip.TileSpec>, bad: Data, e: Zrle.Error, more: Data)
    requires |compressed| < 0x1_0000_0000 && |tiles| < |Tiles(64, rect)| && bad != []
    requires ZrleRoundTrip.AllWellFormed(tiles, Tiles(64, rect)[..|tiles|])
    requires var area := Tiles(64, rect)[|tiles|];
             Zrle.TakeTile(area.x, area.y, area.w, area.h, bad[0], bad[1..]) == Zrle.Fail(e)
    requires cfg.inflate(p.zipped, compressed) ==
             Some(ZrleRoundTrip.PrintTiles(tiles, Tiles(64, rect)[..|tiles|]) + bad)
    ensures Run(cfg, p.(armed := ZrleHeader(rect)), PutU32(|compressed|) + (compressed + more)) ==
            Ran(p.(armed := Crashed, zipped := p.zipped + compressed), [],
                TilesShown(tiles, Tiles(64, rect)[..|tiles|]))
  {
    hide Run, U32, PutU32, PaintCalls, Zrle.Decode, Zrle.TakeTile, ZrleRoundTrip.AllWellFormed;
    hide ZrleRoundTrip.PaintsOf, ZrleRoundTrip.PrintTiles, TilesFrom, TilesShown;
    var h, q := ZrleBody(rect, |compressed|), p.(armed := Crashed, zipped := p.zipped + compressed);
    var calls := TilesShown(tiles, Tiles(64, rect)[..|tiles|]);
    PaintsShow(tiles, Tiles(64, rect)[..|tiles|]);
    ZrleRoundTrip.FailsAfter(rect, rect.x, rect.y, tiles, bad, e);
    Arms(cfg, p.(armed := ZrleHeader(rect)), p.(armed := h), PutU32(|compressed|), [], compressed + more);
    Arms(cfg, p.(armed := h), q, compressed, calls, more);
    Stays(cfg, q, more);
    assert [] + (calls + []) == calls;
  }

  /** The parser once a rectangle's header has been read. */
  function Entered(p: Parser, s: RectSpec): Parser
    requires p.left > 0
  {
    p.(left := p.left - 1, rects := if ShowsPixels(s) then p.rects + [s.rect] else p.rects)
  }

  /** And once all of it has. */
  function Counted(p: Parser, s: RectSpec): Parser
    requires p.left > 0
  {
    Entered(p, s).(zipped := Zipped(p.zipped, s))
  }

  /** Something follows the header: not for the two notices, nor for Hextile without height. */
  predicate HasBody(s: RectSpec) {
    ShowsPixels(s) && !(s.HextileRect? && s.rect.h == 0)
  }

  /** The handler a rectangle's header arms. */
  function BodyHandler(s: RectSpec): Handler
    requires HasBody(s)
  {
    match s
    case RawRect(r, _) => RawBody(r)
    case CopyRect(r, _, _) => CopyBody(r)
    case RreRect(r, _, _) => RreHeader(r)
    case CorreRect(r, _) => CorreHeader(r)
    case HextileRect(r, _) => HexTile(Tile(r, r.x, r.y, None, None))
    case ZrleRect(r, _, _) => ZrleHeader(r)
    case CursorRect(r, _, _) => CursorBody(r)
  }

  lemma {:induction false} RawReacts(cfg: Config, p: Parser, r: Rect, pixels: Data)
    requires |pixels| == r.w * r.h * cfg.bypp
    ensures React(cfg, p.(armed := RawBody(r)), pixels) ==
            NextRectangle(p.(armed := RawBody(r)), [UpdateRectangle(r, pixels)])
  {
    hide NextRectangle;
  }

  lemma {:induction false} CopyReacts(cfg: Config, p: Parser, r: Rect, srcx: nat, srcy: nat)
    requires srcx < 0x1_0000 && srcy < 0x1_0000
    ensures React(cfg, p.(armed := CopyBody(r)), PutU16(srcx) + PutU16(srcy)) ==
            NextRectangle(p.(armed := CopyBody(r)), [CopyRectangle(srcx, srcy, r)])
  {
    hide NextRectangle, U16, PutU16;
    var block := PutU16(srcx) + PutU16(srcy);
    assert block[0..2] == PutU16(srcx) && block[2..4] == PutU16(srcy);
  }

  lemma {:induction false} CursorReacts(cfg: Config, p: Parser, r: Rect, image: Data, mask: Data)
    requires |image| == r.w * r.h * cfg.bypp && |mask| == (r.w + 7) / 8 * r.h
    ensures React(cfg, p.(armed := CursorBody(r)), image + mask) ==
            NextRectangle(p.(armed := CursorBody(r)), [UpdateCursor(r, image, mask)])
  {
    hide NextRectangle;
    assert (image + mask)[..|image|] == image && (image + mask)[|image|..] == mask;
  }

  lemma {:induction false} BodyReadsBack(cfg: Config, p: Parser, s: RectSpec, more: Data)
    requires 0 < cfg.bypp && GoodRect(cfg, s) && HasBody(s) && Inflates(cfg, p.zipped, s)
    ensures var a := NextRectangle(p.(zipped := Zipped(p.zipped, s)), []);
            var r := Run(cfg, a.parser, more);
            && Sensible(BodyHandler(s))
            && Run(cfg, p.(armed := BodyHandler(s)), PrintBody(cfg, s) + more) ==
               r.(trace := RectCalls(s) + (a.calls + r.trace))
  {
    hide Run, React, U16, PutU16, U32, PutU32, NextRectangle, SubPaints, PrintSubs, GoodSubs;
    hide Hextile.PrintTiles, Hextile.AllPaints, Hextile.AllWellFormed;
    hide ZrleRoundTrip.AllWellFormed, ZrleRoundTrip.PrintTiles, TilesShown, PaintCalls, HandleZrle;
    match s {
      case RawRect(r, pixels) =>
        RawReacts(cfg, p, r, pixels);
        Finishes(cfg, p, RawBody(r), pixels, [UpdateRectangle(r, pixels)], more);
      case CopyRect(r, srcx, srcy) =>
        CopyReacts(cfg, p, r, srcx, srcy);
        Finishes(cfg, p, CopyBody(r), PutU16(srcx) + PutU16(srcy), [CopyRectangle(srcx, srcy, r)], more);
      case RreRect(r, bg, subs) => RreReadsBack(cfg, p, r, bg, subs, more);
      case CorreRect(r, bg) =>
        CorreHeadReacts(cfg, p, r, bg, 0);
        Finishes(cfg, p, CorreHeader(r), PutU32(0) + bg, [FillRectangle(r, Some(bg))], more);
      case HextileRect(r, tiles) => Hextile.TilesReadBack(cfg, p, Tile(r, r.x, r.y, None, None), tiles, more);
      case ZrleRect(_, _, _) => ZrleReadsBack(cfg, p, s, more);
      case CursorRect(r, image, mask) =>
        CursorReacts(cfg, p, r, image, mask);
        Finishes(cfg, p, CursorBody(r), image + mask, [UpdateCursor(r, image, mask)], more);
    }
  }

  lemma {:induction false} HeaderArms(cfg: Config, p: Parser, s: RectSpec)
    requires p.armed == RectHeader && p.left > 0 && GoodRect(cfg, s)
    ensures var a, log := HandleRectangle(cfg, p, s.rect, EncodingOf(s)), [Header(s.rect, EncodingOf(s))];
            if HasBody(s) then a == Reaction(Entered(p, s).(armed := BodyHandler(s)), log)
            else PrintBody(cfg, s) == [] && a == NextRectangle(Counted(p, s), log + RectCalls(s))
  {
    hide Hextile.AllPaints, Hextile.AllWellFormed, Hextile.PrintTiles, NextRectangle;
    hide ZrleRoundTrip.AllWellFormed, TilesShown;
    if s.HextileRect? && s.rect.h == 0 {
      Hextile.NoTiles(cfg.bypp, s.rect, s.tiles);
      assert [Header(s.rect, HEXTILE)] + [] == [Header(s.rect, HEXTILE)];
    }
  }

  lemma {:induction false} OneRectReadsBack(cfg: Config, p: Parser, s: RectSpec, more: Data)
    requires 0 < cfg.bypp && p.armed == RectHeader && p.left > 0 && GoodRect(cfg, s) && Inflates(cfg, p.zipped, s)
    ensures var a := NextRectangle(Counted(p, s), []);
            var r := Run(cfg, a.parser, more);
            Run(cfg, p, (PrintHeader(s.rect, EncodingOf(s)) + PrintBody(cfg, s)) + more) ==
            r.(trace := ([Header(s.rect, EncodingOf(s))] + RectCalls(s)) + (a.calls + r.trace))
  {
    hide Run, PrintHeader, HandleRectangle, RectCalls, NextRectangle, React, PrintBody, Inflates;
    var head, body := PrintHeader(s.rect, EncodingOf(s)), PrintBody(cfg, s);
    var log, calls := [Header(s.rect, EncodingOf(s))], RectCalls(s);
    var q := Counted(p, s);
    var a := NextRectangle(q, []);
    var r := Run(cfg, a.parser, more);
    Associative(head, body, more);
    HeaderReadsBack(cfg, p, s.rect, EncodingOf(s));
    HeaderArms(cfg, p, s);
    RunStep(cfg, p, head, body + more);
    if HasBody(s) {
      BodyReadsBack(cfg, Entered(p, s), s, more);
      CallsAssociate(log, calls, a.calls + r.trace);
    } else {
      assert body + more == more;
      NextRectangleAppends(q, log + calls);
      CallsAssociate(log + calls, a.calls, r.trace);
    }
  }

  /** A Raw rectangle larger than a known side of the framebuffer ends the session at its header:
      one error, and nothing else whatever follows. Any other is read; an unknown side refuses
      nothing a 16-bit size can say. */
  lemma {:induction false} OversizeAborts(cfg: Config, p: Parser, r: Rect, more: Data)
    requires p.armed == RectHeader && p.left > 0 && Small(r)
    ensures var q := p.(left := p.left - 1, rects := p.rects + [r]);
            var rest := Run(cfg, q.(armed := RawBody(r)), more);
            Run(cfg, p, PrintHeader(r, RAW) + more) ==
            if (cfg.width != 0 && cfg.width < r.w) || (cfg.height != 0 && cfg.height < r.h) then
              Ran(q.(armed := Aborted), [], [Header(r, RAW), ProtocolError])
            else rest.(trace := [Header(r, RAW)] + rest.trace)
  {
    hide Run, PrintHeader, React;
    var q, log := p.(left := p.left - 1, rects := p.rects + [r]), [Header(r, RAW)];
    HeaderReadsBack(cfg, p, r, RAW);
    if Fits(cfg, r) {
      Arms(cfg, p, q.(armed := RawBody(r)), PrintHeader(r, RAW), log, more);
    } else {
      Arms(cfg, p, q.(armed := Aborted), PrintHeader(r, RAW), log + [ProtocolError], more);
      Stays(cfg, q.(armed := Aborted), more);
      assert (log + [ProtocolError]) + [] == [Header(r, RAW), ProtocolError];
    }
  }

  /** The encodings the client knows what to do with. */
  const KNOWN: set<int> :=
    {RAW, COPY_RECTANGLE, RRE, CORRE, HEXTILE, ZRLE, PSEUDO_CURSOR, PSEUDO_DESKTOP_SIZE, PSEUDO_LAST_RECT,
     PSEUDO_QEMU_EXTENDED_KEY_EVENT}

  /** A rectangle in any other encoding is reported, and the client, which cannot skip its body, goes
      on to read that as headers. */
  lemma {:induction false} UnknownEncodingIsReported(cfg: Config, p: Parser, r: Rect, encoding: int, more: Data)
    requires p.armed == RectHeader && p.left > 0 && Small(r)
    requires -0x8000_0000 <= encoding < 0x8000_0000 && encoding !in KNOWN
    ensures var rest := Run(cfg, p.(left := p.left - 1, rects := p.rects + [r]), more);
            Run(cfg, p, PrintHeader(r, encoding) + more) ==
            rest.(trace := [Header(r, encoding), ProtocolError] + rest.trace)
  {
    hide Run, PrintHeader, React;
    HeaderReadsBack(cfg, p, r, encoding);
    Arms(cfg, p, p.(left := p.left - 1, rects := p.rects + [r]), PrintHeader(r, encoding),
         [Header(r, encoding), ProtocolError], more);
  }

  /** So is a message of an unknown type; the next byte is taken for the next message. */
  lemma {:induction false} UnknownMessageIsReported(cfg: Config, p: Parser, kind: Byte, more: Data)
    requires p.armed == Message && kind > 3
    ensures Run(cfg, p, [kind] + more) == var rest := Run(cfg, p, more); rest.(trace := [ProtocolError] + rest.trace)
  {
    hide Run;
    Arms(cfg, p, p, [kind], [ProtocolError], more);
  }

  /** A block zlib refuses ends the session with nothing painted. */
  lemma {:induction false} ZlibErrorCrashes(cfg: Config, p: Parser, rect: Rect, compressed: Data, more: Data)
    requires |compressed| < 0x1_0000_0000 && cfg.inflate(p.zipped, compressed).None?
    ensures Run(cfg, p.(armed := ZrleHeader(rect)), PutU32(|compressed|) + (compressed + more)) ==
            Ran(p.(armed := Crashed), [], [])
  {
    hide Run, U32, PutU32;
    var h, q := ZrleBody(rect, |compressed|), p.(armed := Crashed);
    Arms(cfg, p.(armed := ZrleHeader(rect)), p.(armed := h), PutU32(|compressed|), [], compressed + more);
    Arms(cfg, p.(armed := h), q, compressed, [], more);
    Stays(cfg, q, more);
  }

  // ----- whole updates -----

  lemma {:induction false} ListedMore(p: Parser, rects: seq<RectSpec>)
    requires rects != [] && p.left > 0
    ensures Counted(p, rects[0]).rects + Listed(rects[1..]) == p.rects + Listed(rects)
  {
    hide ShowsPixels;
    var own: seq<Rect> := if ShowsPixels(rects[0]) then [rects[0].rect] else [];
    assert Listed(rects) == own + Listed(rects[1..]);
    assert p.rects + (own + Listed(rects[1..])) == (p.rects + own) + Listed(rects[1..]);
    assert p.rects + [] == p.rects;
  }

  lemma {:induction false} CountedParts(p: Parser, s: RectSpec)
    requires p.left > 0
    ensures Counted(p, s).left == p.left - 1 && Counted(p, s).zipped == Zipped(p.zipped, s)
  {
  }

  lemma {:induction false} FirstRect(cfg: Config, p: Parser, rects: seq<RectSpec>, ending: Data, more: Data)
    requires 0 < cfg.bypp && GoodRects(cfg, rects) && p.armed == RectHeader && p.left > 0
    requires rects != [] && Inflates(cfg, p.zipped, rects[0])
    ensures var a := NextRectangle(Counted(p, rects[0]), []);
            var r := Run(cfg, a.parser, (PrintRects(cfg, rects[1..]) + ending) + more);
            Run(cfg, p, (PrintRects(cfg, rects) + ending) + more) ==
            r.(trace := RectTrace(cfg, rects[0]) + (a.calls + r.trace))
  {
    hide Run, PrintHeader, RectCalls, PrintBody, Inflates, Counted, NextRectangle, EncodingOf;
    var s, tail := rects[0], PrintRects(cfg, rects[1..]) + ending;
    var one := PrintHeader(s.rect, EncodingOf(s)) + PrintBody(cfg, s);
    Associative(one, PrintRects(cfg, rects[1..]), ending);
    Associative(one, tail, more);
    OneRectReadsBack(cfg, p, s, tail + more);
  }

  /** From any point of an update: the rectangles that are left, then LastRect if there are fewer
      of them than announced. */
  lemma {:induction false} RectsReadBack(cfg: Config, p: Parser, rects: seq<RectSpec>, last: Option<Rect>, more: Data)
    requires 0 < cfg.bypp && GoodRects(cfg, rects) && p.armed == RectHeader && p.left > 0
    requires RectsInflate(cfg, p.zipped, rects)
    requires if last.Some? then |rects| < p.left && Small(last.value) else |rects| == p.left
    ensures var q := Parser(Message, 0, p.rects + Listed(rects), ZippedAll(p.zipped, rects));
            var ending := if last.Some? then PrintHeader(last.value, PSEUDO_LAST_RECT) else [];
            var notice := if last.Some? then [Header(last.value, PSEUDO_LAST_RECT)] else [];
            var closing := notice + [CommitUpdate(q.rects)];
            var r := Run(cfg, q, more);
            Run(cfg, p, (PrintRects(cfg, rects) + ending) + more) ==
            r.(trace := (RectsCalls(cfg, rects) + closing) + r.trace)
    decreases |rects|
  {
    hide Run, PrintHeader, RectTrace, PrintBody, React, HandleRectangle, Inflates, GoodRect, Counted, EncodingOf;
    var q := Parser(Message, 0, p.rects + Listed(rects), ZippedAll(p.zipped, rects));
    var ending := if last.Some? then PrintHeader(last.value, PSEUDO_LAST_RECT) else [];
    var closing := (if last.Some? then [Header(last.value, PSEUDO_LAST_RECT)] else []) + [CommitUpdate(q.rects)];
    if rects == [] {
      assert p.rects + [] == p.rects;
      assert PrintRects(cfg, rects) + ending == ending && RectsCalls(cfg, rects) + closing == closing;
      LastRectEnds(cfg, p, last.value);
      Arms(cfg, p, q, ending, closing, more);
    } else {
      var s, rest := rects[0], rects[1..];
      var tail := PrintRects(cfg, rest) + ending;
      var calls := RectTrace(cfg, s);
      FirstRect(cfg, p, rects, ending, more);
      ListedMore(p, rects);
      var c := Counted(p, s);
      CountedParts(p, s);
      var a := NextRectangle(c, []);
      var r := Run(cfg, q, more);
      CallsAssociate(calls, RectsCalls(cfg, rest), closing);
      CallsAssociate(calls, RectsCalls(cfg, rest) + closing, r.trace);
      if c.left > 0 {
        RectsReadBack(cfg, a.parser, rest, last, more);
        assert [] + Run(cfg, a.parser, tail + more).trace == Run(cfg, a.parser, tail + more).trace;
      } else {
        assert rest == [] && tail + more == more;
        assert c.rects + [] == c.rects && [] + [CommitUpdate(c.rects)] == [CommitUpdate(c.rects)];
        assert RectsCalls(cfg, rest) + closing == closing == a.calls;
      }
    }
  }

  lemma {:induction false} LastRectEnds(cfg: Config, p: Parser, last: Rect)
    requires p.armed == RectHeader && Small(last)
    ensures React(cfg, p, PrintHeader(last, PSEUDO_LAST_RECT)) ==
            Reaction(Parser(Message, 0, p.rects, p.zipped), [Header(last, PSEUDO_LAST_RECT)] + [CommitUpdate(p.rects)])
  {
    hide PrintHeader, React;
    HeaderReadsBack(cfg, p, last, PSEUDO_LAST_RECT);
  }

  /** The parser is at a message boundary, whatever its last update was. */
  function Settled(p: Parser, m: ServerMessage): Parser {
    match m
    case Update(rects) => Parser(Message, 0, Listed(rects), ZippedAll(p.zipped, rects))
    case OpenUpdate(_, early, _) => Parser(Message, 0, Listed(early), ZippedAll(p.zipped, early))
    case _ => p.(armed := Message)
  }

  lemma {:induction false} UpdateReadsBack(cfg: Config, p: Parser, count: nat, rects: seq<RectSpec>,
                                           last: Option<Rect>, more: Data)
    requires 0 < cfg.bypp && GoodRects(cfg, rects) && p.armed == Message && count < 0x1_0000
    requires RectsInflate(cfg, p.zipped, rects)
    requires if last.Some? then |rects| < count && Small(last.value) else |rects| == count
    ensures var q := Parser(Message, 0, Listed(rects), ZippedAll(p.zipped, rects));
            var ending := if last.Some? then PrintHeader(last.value, PSEUDO_LAST_RECT) else [];
            var notice := if last.Some? then [Header(last.value, PSEUDO_LAST_RECT)] else [];
            var closing := notice + [CommitUpdate(q.rects)];
            var r := Run(cfg, q, more);
            Run(cfg, p, ([0] + (([0] + PutU16(count)) + (PrintRects(cfg, rects) + ending))) + more) ==
            r.(trace := ([BeginUpdate(count)] + (RectsCalls(cfg, rects) + closing)) + r.trace)
  {
    hide Run, PrintHeader, PrintRects, RectsCalls, GoodRects, PutU16, U16, RectsInflate;
    var kind: Data, head: Data := [0], [0] + PutU16(count);
    var ending := if last.Some? then PrintHeader(last.value, PSEUDO_LAST_RECT) else [];
    var body := PrintRects(cfg, rects) + ending;
    var closing := (if last.Some? then [Header(last.value, PSEUDO_LAST_RECT)] else []) + [CommitUpdate(Listed(rects))];
    var begin, calls := [BeginUpdate(count)], RectsCalls(cfg, rects) + closing;
    Associative(kind, head + body, more);
    Associative(head, body, more);
    var p1 := p.(armed := UpdateHeader);
    Arms(cfg, p, p1, kind, [], head + (body + more));
    assert [] + Run(cfg, p1, head + (body + more)).trace == Run(cfg, p1, head + (body + more)).trace;
    assert head[1..3] == PutU16(count);
    RunStep(cfg, p1, head, body + more);
    var q := Parser(Message, 0, Listed(rects), ZippedAll(p.zipped, rects));
    CallsAssociate(begin, calls, Run(cfg, q, more).trace);
    assert [] + Listed(rects) == Listed(rects);
    if count > 0 {
      RectsReadBack(cfg, Parser(RectHeader, count, [], p.zipped), rects, last, more);
    } else {
      EmptyUpdate(cfg, rects);
      assert body + more == more;
      assert calls == [CommitUpdate([])];
    }
  }

  lemma {:induction false} EmptyUpdate(cfg: Config, rects: seq<RectSpec>)
    requires rects == []
    ensures GoodRects(cfg, rects) && PrintRects(cfg, rects) == [] && RectsCalls(cfg, rects) == [] && Listed(rects) == []
  {
  }

  lemma {:induction false} CutTextReadsBack(cfg: Config, p: Parser, text: Data, more: Data)
    requires p.armed == Message && |text| < 0x1_0000_0000
    ensures Run(cfg, p, ([3] + (([0, 0, 0] + PutU32(|text|)) + text)) + more) ==
            var r := Run(cfg, p, more); r.(trace := [CopyText(text)] + r.trace)
  {
    hide Run, PutU32, U32;
    var kind: Data, head: Data := [3], [0, 0, 0] + PutU32(|text|);
    Associative(kind, head + text, more);
    Associative(head, text, more);
    assert head[3..7] == PutU32(|text|);
    var p1, p2 := p.(armed := CutHeader), p.(armed := CutBody(|text|));
    Arms(cfg, p, p1, kind, [], head + (text + more));
    Arms(cfg, p1, p2, head, [], text + more);
    Arms(cfg, p2, p, text, [CopyText(text)], more);
    assert [] + Run(cfg, p1, head + (text + more)).trace == Run(cfg, p1, head + (text + more)).trace;
    assert [] + Run(cfg, p2, text + more).trace == Run(cfg, p2, text + more).trace;
  }

  lemma {:induction false} ColourMapReadsBack(cfg: Config, p: Parser, first: nat,
                                              colors: seq<(nat, nat, nat)>, more: Data)
    requires p.armed == Message && first < 0x1_0000 && |colors| < 0x1_0000 && GoodColours(colors)
    ensures Run(cfg, p, ([1] + (([0] + (PutU16(first) + PutU16(|colors|))) + PrintColours(colors))) + more) ==
            var r := Run(cfg, p, more); r.(trace := [SetColorMap(first, colors)] + r.trace)
  {
    hide Run, PutU16, U16, Colours, PrintColours, GoodColours;
    var kind: Data, head: Data := [1], [0] + (PutU16(first) + PutU16(|colors|));
    var body := PrintColours(colors);
    Associative(kind, head + body, more);
    Associative(head, body, more);
    assert head[1..3] == PutU16(first) && head[3..5] == PutU16(|colors|);
    var p1, p2 := p.(armed := ColourHeader), p.(armed := ColourBody(first, |colors|));
    Arms(cfg, p, p1, kind, [], head + (body + more));
    Arms(cfg, p1, p2, head, [], body + more);
    ColoursReadBack(colors);
    Arms(cfg, p2, p, body, [SetColorMap(first, colors)], more);
    assert [] + Run(cfg, p1, head + (body + more)).trace == Run(cfg, p1, head + (body + more)).trace;
    assert [] + Run(cfg, p2, body + more).trace == Run(cfg, p2, body + more).trace;
  }

  lemma {:induction false} MessageReadsBack(cfg: Config, p: Parser, m: ServerMessage, more: Data)
    requires 0 < cfg.bypp && Good(cfg, m) && p.armed == Message && RectsInflate(cfg, p.zipped, RectsOf(m))
    ensures var r := Run(cfg, Settled(p, m), more);
            Run(cfg, p, Print(cfg, m) + more) == r.(trace := Calls(cfg, m) + r.trace)
  {
    hide Run, PrintRects, RectsCalls, PutU16, PutU32, U16, U32, PrintHeader, RectsInflate, GoodRects;
    match m {
      case BellMessage => Arms(cfg, p, p, [2], [Bell], more);
      case CutText(text) => CutTextReadsBack(cfg, p, text, more);
      case ColourMap(first, colors) => ColourMapReadsBack(cfg, p, first, colors, more);
      case Update(rects) =>
        UpdateReadsBack(cfg, p, |rects|, rects, None, more);
        assert PrintRects(cfg, rects) + [] == PrintRects(cfg, rects);
        assert [] + [CommitUpdate(Listed(rects))] == [CommitUpdate(Listed(rects))];
      case OpenUpdate(count, early, last) =>
        UpdateReadsBack(cfg, p, count, early, Some(last), more);
    }
  }

  // ----- whole sessions -----

  predicate AllGood(cfg: Config, ms: seq<ServerMessage>) {
    forall i :: 0 <= i < |ms| ==> Good(cfg, ms[i])
  }

  /** Every ZRLE block of the session inflates to its tiles, the one zlib stream running through all. */
  predicate SessionInflates(cfg: Config, p: Parser, ms: seq<ServerMessage>)
    requires AllGood(cfg, ms)
    decreases |ms|
  {
    ms == [] || (RectsInflate(cfg, p.zipped, RectsOf(ms[0])) && SessionInflates(cfg, Settled(p, ms[0]), ms[1..]))
  }

  function PrintAll(cfg: Config, ms: seq<ServerMessage>): Data
    requires AllGood(cfg, ms)
  {
    if ms == [] then [] else Print(cfg, ms[0]) + PrintAll(cfg, ms[1..])
  }

  function CallsAll(cfg: Config, ms: seq<ServerMessage>): seq<Callback>
    requires AllGood(cfg, ms)
  {
    if ms == [] then [] else Calls(cfg, ms[0]) + CallsAll(cfg, ms[1..])
  }

  /** The session parser undoes the encoder: of any list of well-formed messages it consumes
      every byte, makes exactly the callbacks they stand for, in order, and ends where it began. */
  lemma {:induction false} ParseUndoesPrint(cfg: Config, p: Parser, ms: seq<ServerMessage>)
    requires 0 < cfg.bypp && AllGood(cfg, ms) && p.armed == Message && SessionInflates(cfg, p, ms)
    ensures var r := Run(cfg, p, PrintAll(cfg, ms));
            r.trace == CallsAll(cfg, ms) && r.packet == [] && r.parser.armed == Message
    decreases |ms|
  {
    hide Print, Calls, Good;
    if ms != [] {
      hide Run;
      MessageReadsBack(cfg, p, ms[0], PrintAll(cfg, ms[1..]));
      ParseUndoesPrint(cfg, Settled(p, ms[0]), ms[1..]);
    }
  }

  /** However the server's bytes are cut on the way. */
  lemma {:induction false} SessionReadsBack(cfg: Config, ms: seq<ServerMessage>, chunks: seq<Data>)
    requires 0 < cfg.bypp && AllGood(cfg, ms) && Concat(chunks) == PrintAll(cfg, ms)
    requires SessionInflates(cfg, Parser(Message, 0, [], []), ms)
    ensures RunChunks(cfg, Ran(Parser(Message, 0, [], []), [], []), chunks).trace == CallsAll(cfg, ms)
  {
    hide Run, RunChunks, PrintAll, CallsAll, AllGood, SessionInflates;
    var p := Parser(Message, 0, [], []);
    assert Run(cfg, p, []) == Ran(p, [], []) by { Nothing(cfg, p); }
    ChunkingIsInvisible(cfg, p, [], chunks);
    assert [] + Concat(chunks) == Concat(chunks);
    ParseUndoesPrint(cfg, p, ms);
  }

  lemma {:induction false} Nothing(cfg: Config, p: Parser)
    requires p.armed == Message
    ensures Run(cfg, p, []) == Ran(p, [], [])
  {
  }
}
