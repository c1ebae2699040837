/**
  Hextile (vncdotool/rfb.py, section 7.7.4 of RFC 6143): an encoder for tile lists, and the
  proof that the client's decoder reads back exactly what it prints, tile after tile, with
  the background and foreground carried from tile to tile.
 */
module Hextile {
  import opened Bytes
  import opened Session
  import opened Parsing
  import opened Tiling

  /** Position in the tile and size of a subrectangle. */
  datatype Sub = Sub(x: nat, y: nat, w: nat, h: nat) {
    predicate Fits() { x < 16 && y < 16 && 0 < w <= 16 && 0 < h <= 16 }
  }

  datatype Subs = NoSubs | Plain(subs: seq<Sub>) | Coloured(coloured: seq<(Data, Sub)>)

  datatype TileSpec =
    /** With Raw set, whatever else `flags` says does not matter. */
    | RawTile(flags: Byte, pixels: Data)
    | Painted(bg: Option<Data>, fg: Option<Data>, subs: Subs)
  {
    /** What section 7.7.4 lets an encoder send for a tile of size `area`. */
    predicate WellFormed(bypp: nat, area: Rect) {
      match this
      case RawTile(_, pixels) => |pixels| == area.w * area.h * bypp
      case Painted(bg, fg, subs) =>
        && (bg.Some? ==> |bg.value| == bypp) && (fg.Some? ==> |fg.value| == bypp)
        && match subs
           case NoSubs => true
           case Plain(s) => |s| < 256 && forall i :: 0 <= i < |s| ==> s[i].Fits()
           case Coloured(s) =>
             fg.None? && |s| < 256 && forall i :: 0 <= i < |s| ==> |s[i].0| == bypp && s[i].1.Fits()
    }
  }

  // ----- printing -----

  function PrintSub(s: Sub): Data
    requires s.Fits()
  {
    [16 * s.x + s.y, 16 * (s.w - 1) + (s.h - 1)]
  }

  function PrintPlain(s: seq<Sub>): (r: Data)
    requires forall i :: 0 <= i < |s| ==> s[i].Fits()
    ensures |r| == 2 * |s|
  {
    if s == [] then [] else PrintSub(s[0]) + PrintPlain(s[1..])
  }

  function PrintColoured(bypp: nat, s: seq<(Data, Sub)>): (r: Data)
    requires forall i :: 0 <= i < |s| ==> |s[i].0| == bypp && s[i].1.Fits()
    ensures |r| == (bypp + 2) * |s|
  {
    if s == [] then []
    else
      assert (bypp + 2) * |s| == bypp + 2 + (bypp + 2) * |s[1..]|;
      (s[0].0 + PrintSub(s[0].1)) + PrintColoured(bypp, s[1..])
  }

  function Given(c: Option<Data>): Data { if c.Some? then c.value else [] }

  function Flags(t: TileSpec): Byte {
    match t
    case RawTile(flags, _) => 2 * (flags / 2) + 1
    case Painted(bg, fg, subs) =>
      (if bg.Some? then 2 else 0) + (if fg.Some? then 4 else 0)
      + (if subs.NoSubs? then 0 else 8) + (if subs.Coloured? then 16 else 0)
  }

  function Count(subs: Subs): nat {
    match subs
    case NoSubs => 0
    case Plain(s) => |s|
    case Coloured(s) => |s|
  }

  /** Colours and count, as they follow the flags of a non-raw tile. */
  function PrintParts(bypp: nat, t: TileSpec, area: Rect): Data
    requires t.Painted? && t.WellFormed(bypp, area)
  {
    (Given(t.bg) + Given(t.fg)) + if t.subs.NoSubs? then [] else [Count(t.subs)]
  }

  function PrintSubs(bypp: nat, t: TileSpec, area: Rect): Data
    requires t.Painted? && t.WellFormed(bypp, area)
  {
    match t.subs
    case NoSubs => []
    case Plain(s) => PrintPlain(s)
    case Coloured(s) => PrintColoured(bypp, s)
  }

  function PrintTile(bypp: nat, t: TileSpec, area: Rect): Data
    requires t.WellFormed(bypp, area)
  {
    match t
    case RawTile(_, pixels) => [Flags(t)] + pixels
    case Painted(_, _, _) => [Flags(t)] + (PrintParts(bypp, t, area) + PrintSubs(bypp, t, area))
  }

  predicate AllWellFormed(bypp: nat, specs: seq<TileSpec>, areas: seq<Rect>) {
    |specs| == |areas| && forall i :: 0 <= i < |specs| ==> specs[i].WellFormed(bypp, areas[i])
  }

  function PrintTiles(bypp: nat, specs: seq<TileSpec>, areas: seq<Rect>): Data
    requires AllWellFormed(bypp, specs, areas)
    decreases |specs|
  {
    if specs == [] then [] else PrintTile(bypp, specs[0], areas[0]) + PrintTiles(bypp, specs[1..], areas[1..])
  }

  // ----- meaning -----

  function Placed(area: Rect, s: Sub): Rect { Rect(area.x + s.x, area.y + s.y, s.w, s.h) }

  function PlainPaints(area: Rect, color: Option<Data>, s: seq<Sub>): seq<Callback> {
    seq(|s|, i requires 0 <= i < |s| => FillRectangle(Placed(area, s[i]), color))
  }

  function ColouredPaints(area: Rect, s: seq<(Data, Sub)>): seq<Callback> {
    seq(|s|, i requires 0 <= i < |s| => FillRectangle(Placed(area, s[i].1), Some(s[i].0)))
  }

  /** The background in force once `t` has been read, `bg` being in force before it. */
  function Background(t: TileSpec, bg: Option<Data>): Option<Data> {
    if t.Painted? && t.bg.Some? then t.bg else bg
  }

  /** Likewise the foreground: the colour named last, be it by the tile or by its last subrectangle. */
  function Foreground(t: TileSpec, fg: Option<Data>): Option<Data> {
    if t.RawTile? then fg
    else if t.subs.Coloured? && t.subs.coloured != [] then Some(t.subs.coloured[|t.subs.coloured| - 1].0)
    else if t.fg.Some? then t.fg else fg
  }

  /** What one tile paints. */
  function TilePaints(t: TileSpec, area: Rect, bg: Option<Data>, fg: Option<Data>): seq<Callback> {
    match t
    case RawTile(_, pixels) => [UpdateRectangle(area, pixels)]
    case Painted(_, own, subs) =>
      [FillRectangle(area, Background(t, bg))] +
      match subs
      case NoSubs => []
      case Plain(s) => PlainPaints(area, if own.Some? then own else fg, s)
      case Coloured(s) => ColouredPaints(area, s)
  }

  function AllPaints(specs: seq<TileSpec>, areas: seq<Rect>, bg: Option<Data>, fg: Option<Data>): seq<Callback>
    requires |specs| == |areas|
    decreases |specs|
  {
    if specs == [] then []
    else
      TilePaints(specs[0], areas[0], bg, fg)
      + AllPaints(specs[1..], areas[1..], Background(specs[0], bg), Foreground(specs[0], fg))
  }

  // ----- subrectangles -----

  lemma {:induction false} SubReadsBack(tx: nat, ty: nat, s: Sub)
    requires s.Fits()
    ensures Subrect(tx, ty, PrintSub(s)[0], PrintSub(s)[1]) == Rect(tx + s.x, ty + s.y, s.w, s.h)
  {
  }

  lemma {:induction false} PlainReadsBack(area: Rect, color: Option<Data>, s: seq<Sub>)
    requires forall i :: 0 <= i < |s| ==> s[i].Fits()
    ensures PlainSubrects(area.x, area.y, color, PrintPlain(s)) == PlainPaints(area, color, s)
    decreases |s|
  {
    hide Subrect, PrintSub;
    if s != [] {
      var block := PrintPlain(s);
      assert PrintSub(s[0]) == block[..2] && block[2..] == PrintPlain(s[1..]);
      assert block[0] == PrintSub(s[0])[0] && block[1] == PrintSub(s[0])[1];
      SubReadsBack(area.x, area.y, s[0]);
      PlainReadsBack(area, color, s[1..]);
      assert PlainPaints(area, color, s) ==
             [FillRectangle(Placed(area, s[0]), color)] + PlainPaints(area, color, s[1..]);
    }
  }

  lemma {:induction false} ColouredReadsBack(bypp: nat, area: Rect, s: seq<(Data, Sub)>, fg: Option<Data>)
    requires forall i :: 0 <= i < |s| ==> |s[i].0| == bypp && s[i].1.Fits()
    ensures ColouredSubrects(bypp, area.x, area.y, PrintColoured(bypp, s)) == ColouredPaints(area, s)
    ensures LastColour(bypp, fg, PrintColoured(bypp, s)) == if s == [] then fg else Some(s[|s| - 1].0)
    decreases |s|
  {
    hide Subrect, PrintSub;
    if s != [] {
      var block, p := PrintColoured(bypp, s), PrintSub(s[0].1);
      assert |p| == 2;
      var head := s[0].0 + p;
      assert block == head + PrintColoured(bypp, s[1..]) && |head| == bypp + 2;
      assert block[..bypp] == s[0].0 && block[bypp + 2..] == PrintColoured(bypp, s[1..]);
      assert block[bypp] == p[0] && block[bypp + 1] == p[1];
      SubReadsBack(area.x, area.y, s[0].1);
      ColouredReadsBack(bypp, area, s[1..], Some(s[0].0));
      assert ColouredPaints(area, s) ==
             [FillRectangle(Placed(area, s[0].1), Some(s[0].0))] + ColouredPaints(area, s[1..]);
    }
  }

  // ----- one tile -----

  lemma {:induction false} FlagsReadBack(t: TileSpec)
    ensures Flagged(Flags(t), 1) <==> t.RawTile?
    ensures t.Painted? ==> (Flagged(Flags(t), 2) <==> t.bg.Some?)
    ensures t.Painted? ==> (Flagged(Flags(t), 4) <==> t.fg.Some?)
    ensures t.Painted? ==> (Flagged(Flags(t), 8) <==> !t.subs.NoSubs?)
    ensures t.Painted? ==> (Flagged(Flags(t), 16) <==> t.subs.Coloured?)
  {
  }

  /** The tile that follows, with the colours `t` leaves in force. */
  function Carried(t: Tile, spec: TileSpec): Tile {
    t.(bg := Background(spec, t.bg), fg := Foreground(spec, t.fg))
  }

  /** `_doNextHextileSubrect` adds its own callbacks after those of the tile. */
  lemma {:induction false} NextTileAppends(p: Parser, t: Tile, calls: seq<Callback>)
    requires t.Placed()
    ensures NextTile(p, t, calls) == var a := NextTile(p, t, []); a.(calls := calls + a.calls)
  {
    assert calls + [] == calls;
    assert [] + [CommitUpdate(p.rects)] == [CommitUpdate(p.rects)];
  }

  /** What the flags and the parts of a non-raw tile set up. */
  lemma {:induction false} PartsReadBack(cfg: Config, p: Parser, t: Tile, spec: TileSpec)
    requires 0 < cfg.bypp && t.Placed() && spec.Painted? && spec.WellFormed(cfg.bypp, t.Area())
    ensures var flags, block := Flags(spec), PrintParts(cfg.bypp, spec, t.Area());
            && |block| == PartsLength(cfg.bypp, flags)
            && var u := t.(bg := Background(spec, t.bg), fg := if spec.fg.Some? then spec.fg else t.fg);
               var fill := [FillRectangle(t.Area(), u.bg)];
               HandleParts(cfg, p, t, flags, block) ==
               if Count(spec.subs) == 0 then NextTile(p, u, fill)
               else if spec.subs.Coloured? then Reaction(p.(armed := HexColoured(u, Count(spec.subs))), fill)
               else Reaction(p.(armed := HexPlain(u, Count(spec.subs))), fill)
  {
    hide Flags, Flagged, NextTile;
    FlagsReadBack(spec);
    var bypp, block := cfg.bypp, PrintParts(cfg.bypp, spec, t.Area());
    if spec.bg.Some? {
      assert block[..bypp] == spec.bg.value;
      if spec.fg.Some? {
        assert block[bypp..bypp + bypp] == spec.fg.value;
      }
    } else if spec.fg.Some? {
      assert block[0..0 + bypp] == spec.fg.value;
    }
  }

  lemma {:induction false} RawTileReadsBack(cfg: Config, p: Parser, t: Tile, spec: TileSpec, more: Data)
    requires t.Placed() && spec.RawTile? && spec.WellFormed(cfg.bypp, t.Area())
    ensures var a := NextTile(p, Carried(t, spec), []);
            var r := Run(cfg, a.parser, more);
            Run(cfg, p.(armed := HexTile(t)), PrintTile(cfg.bypp, spec, t.Area()) + more) ==
            r.(trace := TilePaints(spec, t.Area(), t.bg, t.fg) + (a.calls + r.trace))
  {
    hide Flags, Run, NextTile;
    FlagsReadBack(spec);
    var p0, p1 := p.(armed := HexTile(t)), p.(armed := HexRaw(t));
    var head: Data := [Flags(spec)];
    Associative(head, spec.pixels, more);
    RunStep(cfg, p0, head, spec.pixels + more);
    RunStep(cfg, p1, spec.pixels, more);
    var calls := TilePaints(spec, t.Area(), t.bg, t.fg);
    NextTileAppends(p, t, calls);
    var a := NextTile(p, t, []);
    SameParser(p, p1, t, calls);
    CallsAssociate(calls, a.calls, Run(cfg, a.parser, more).trace);
    assert [] + Run(cfg, p1, spec.pixels + more).trace == Run(cfg, p1, spec.pixels + more).trace;
  }

  /** Moving on does not depend on which handler was armed. */
  lemma {:induction false} SameParser(p: Parser, q: Parser, t: Tile, calls: seq<Callback>)
    requires t.Placed() && q == p.(armed := q.armed)
    ensures NextTile(q, t, calls) == NextTile(p, t, calls)
  {
  }

  /** The subrectangles, once flags and parts have been read. */
  lemma {:induction false} SubsReadBack(cfg: Config, p: Parser, t: Tile, u: Tile, spec: TileSpec,
                                        fill: seq<Callback>, more: Data)
    requires t.Placed() && spec.Painted? && spec.WellFormed(cfg.bypp, t.Area()) && Count(spec.subs) > 0
    requires u == t.(bg := Background(spec, t.bg), fg := if spec.fg.Some? then spec.fg else t.fg)
    requires fill == [FillRectangle(t.Area(), u.bg)]
    ensures var n := Count(spec.subs);
            var q := p.(armed := if spec.subs.Coloured? then HexColoured(u, n) else HexPlain(u, n));
            var a := NextTile(p, Carried(t, spec), []);
            var r := Run(cfg, a.parser, more);
            var s := Run(cfg, q, PrintSubs(cfg.bypp, spec, t.Area()) + more);
            s.(trace := fill + s.trace) == r.(trace := TilePaints(spec, t.Area(), t.bg, t.fg) + (a.calls + r.trace))
  {
    hide Run, NextTile, PlainSubrects, ColouredSubrects, LastColour, PlainPaints, ColouredPaints;
    var area, n := t.Area(), Count(spec.subs);
    var q := p.(armed := if spec.subs.Coloured? then HexColoured(u, n) else HexPlain(u, n));
    var block := PrintSubs(cfg.bypp, spec, area);
    var a := NextTile(p, Carried(t, spec), []);
    var r := Run(cfg, a.parser, more);
    RunStep(cfg, q, block, more);
    var calls;
    if spec.subs.Coloured? {
      ColouredReadsBack(cfg.bypp, area, spec.subs.coloured, u.fg);
      calls := ColouredPaints(area, spec.subs.coloured);
    } else {
      PlainReadsBack(area, u.fg, spec.subs.subs);
      calls := PlainPaints(area, u.fg, spec.subs.subs);
    }
    SameParser(p, q, Carried(t, spec), calls);
    NextTileAppends(p, Carried(t, spec), calls);
    CallsAssociate(calls, a.calls, r.trace);
    CallsAssociate(fill, calls, a.calls + r.trace);
  }

  /** The flags byte of a tile, as the decoder reacts to it. */
  lemma {:induction false} HeadReadsBack(cfg: Config, p: Parser, t: Tile, spec: TileSpec)
    requires t.Placed() && spec.Painted?
    ensures var a := React(cfg, p.(armed := HexTile(t)), [Flags(spec)]);
            if PartsLength(cfg.bypp, Flags(spec)) == 0 then a == NextTile(p, t, [FillRectangle(t.Area(), t.bg)])
            else a == Reaction(p.(armed := HexParts(t, Flags(spec))), [])
  {
    hide Flags, PartsLength, NextTile, Flagged;
    FlagsReadBack(spec);
    SameParser(p, p.(armed := HexTile(t)), t, [FillRectangle(t.Area(), t.bg)]);
  }

  /** Nothing but a flag byte. */
  lemma {:induction false} BareTileReadsBack(cfg: Config, p: Parser, t: Tile, spec: TileSpec, more: Data)
    requires 0 < cfg.bypp && t.Placed() && spec.Painted? && spec.WellFormed(cfg.bypp, t.Area())
    requires PartsLength(cfg.bypp, Flags(spec)) == 0
    ensures var a := NextTile(p, Carried(t, spec), []);
            var r := Run(cfg, a.parser, more);
            Run(cfg, p.(armed := HexTile(t)), PrintTile(cfg.bypp, spec, t.Area()) + more) ==
            r.(trace := TilePaints(spec, t.Area(), t.bg, t.fg) + (a.calls + r.trace))
  {
    hide Flags, Run, NextTile, TilePaints, HandleTile, PartsLength, PrintParts, PrintSubs;
    HeadReadsBack(cfg, p, t, spec);
    NothingToRead(cfg, t, spec);
    var head: Data := [Flags(spec)];
    assert head + ([] + []) == head;
    RunStep(cfg, p.(armed := HexTile(t)), head, more);
    var fill := [FillRectangle(t.Area(), t.bg)];
    NextTileAppends(p, t, fill);
    var a := NextTile(p, t, []);
    CallsAssociate(fill, a.calls, Run(cfg, a.parser, more).trace);
  }

  /** The colours and subrectangles that follow the flag byte. */
  lemma {:induction false} PartsTileReadsBack(cfg: Config, p: Parser, t: Tile, spec: TileSpec, more: Data)
    requires 0 < cfg.bypp && t.Placed() && spec.Painted? && spec.WellFormed(cfg.bypp, t.Area())
    requires PartsLength(cfg.bypp, Flags(spec)) != 0
    ensures var a := NextTile(p, Carried(t, spec), []);
            var r := Run(cfg, a.parser, more);
            Run(cfg, p.(armed := HexParts(t, Flags(spec))),
                PrintParts(cfg.bypp, spec, t.Area()) + (PrintSubs(cfg.bypp, spec, t.Area()) + more)) ==
            r.(trace := TilePaints(spec, t.Area(), t.bg, t.fg) + (a.calls + r.trace))
  {
    hide Flags, Run, NextTile, PlainPaints, ColouredPaints, HandleParts, HandleTile, Flagged, PartsLength;
    var area := t.Area();
    var parts, subs := PrintParts(cfg.bypp, spec, area), PrintSubs(cfg.bypp, spec, area);
    var p1 := p.(armed := HexParts(t, Flags(spec)));
    var u := t.(bg := Background(spec, t.bg), fg := if spec.fg.Some? then spec.fg else t.fg);
    var fill := [FillRectangle(area, u.bg)];
    PartsReadBack(cfg, p1, t, spec);
    RunStep(cfg, p1, parts, subs + more);
    if Count(spec.subs) == 0 {
      NoSubsLeft(cfg, t, u, spec);
      SameParser(p, p1, u, fill);
      assert subs + more == more;
      NextTileAppends(p, u, fill);
      var a := NextTile(p, u, []);
      CallsAssociate(fill, a.calls, Run(cfg, a.parser, more).trace);
    } else {
      SubsReadBack(cfg, p1, t, u, spec, fill, more);
      SameParser(p, p1, Carried(t, spec), []);
    }
  }

  lemma {:induction false} PaintedTileReadsBack(cfg: Config, p: Parser, t: Tile, spec: TileSpec, more: Data)
    requires 0 < cfg.bypp && t.Placed() && spec.Painted? && spec.WellFormed(cfg.bypp, t.Area())
    ensures var a := NextTile(p, Carried(t, spec), []);
            var r := Run(cfg, a.parser, more);
            Run(cfg, p.(armed := HexTile(t)), PrintTile(cfg.bypp, spec, t.Area()) + more) ==
            r.(trace := TilePaints(spec, t.Area(), t.bg, t.fg) + (a.calls + r.trace))
  {
    hide Flags, Run, NextTile, TilePaints, HandleTile, PartsLength, PrintParts, PrintSubs;
    if PartsLength(cfg.bypp, Flags(spec)) == 0 {
      BareTileReadsBack(cfg, p, t, spec, more);
    } else {
      HeadReadsBack(cfg, p, t, spec);
      var area := t.Area();
      var parts, subs := PrintParts(cfg.bypp, spec, area), PrintSubs(cfg.bypp, spec, area);
      var head: Data := [Flags(spec)];
      Associative(head, parts + subs, more);
      Associative(parts, subs, more);
      RunStep(cfg, p.(armed := HexTile(t)), head, parts + (subs + more));
      PartsTileReadsBack(cfg, p, t, spec, more);
      var q := Run(cfg, p.(armed := HexParts(t, Flags(spec))), parts + (subs + more));
      assert [] + q.trace == q.trace;
    }
  }

  lemma {:induction false} NothingToRead(cfg: Config, t: Tile, spec: TileSpec)
    requires 0 < cfg.bypp && t.Placed() && spec.Painted? && spec.WellFormed(cfg.bypp, t.Area())
    requires PartsLength(cfg.bypp, Flags(spec)) == 0
    ensures Carried(t, spec) == t
    ensures PrintParts(cfg.bypp, spec, t.Area()) == [] && PrintSubs(cfg.bypp, spec, t.Area()) == []
    ensures TilePaints(spec, t.Area(), t.bg, t.fg) == [FillRectangle(t.Area(), t.bg)]
  {
    hide Flags, Flagged;
    FlagsReadBack(spec);
    assert [FillRectangle(t.Area(), t.bg)] + [] == [FillRectangle(t.Area(), t.bg)];
  }

  lemma {:induction false} NoSubsLeft(cfg: Config, t: Tile, u: Tile, spec: TileSpec)
    requires t.Placed() && spec.Painted? && spec.WellFormed(cfg.bypp, t.Area()) && Count(spec.subs) == 0
    requires u == t.(bg := Background(spec, t.bg), fg := if spec.fg.Some? then spec.fg else t.fg)
    ensures u == Carried(t, spec) && PrintSubs(cfg.bypp, spec, t.Area()) == []
    ensures TilePaints(spec, t.Area(), t.bg, t.fg) == [FillRectangle(t.Area(), u.bg)]
  {
    var fill := [FillRectangle(t.Area(), u.bg)];
    assert fill + [] == fill;
  }

  // ----- the whole rectangle -----

  /** From any tile on: the decoder consumes exactly the printed tiles and makes exactly their paints. */
  lemma {:induction false} TilesReadBack(cfg: Config, p: Parser, t: Tile, specs: seq<TileSpec>, more: Data)
    requires 0 < cfg.bypp && t.Placed()
    requires var areas := TilesFrom(16, t.rect, t.tx, t.ty); AllWellFormed(cfg.bypp, specs, areas)
    ensures var areas := TilesFrom(16, t.rect, t.tx, t.ty);
            var a := NextRectangle(p, []);
            var r := Run(cfg, a.parser, more);
            Run(cfg, p.(armed := HexTile(t)), PrintTiles(cfg.bypp, specs, areas) + more) ==
            r.(trace := AllPaints(specs, areas, t.bg, t.fg) + (a.calls + r.trace))
    decreases |specs|
  {
    hide Run, PrintTile, TilePaints, TileSpec.WellFormed, Background, Foreground;
    var areas := TilesFrom(16, t.rect, t.tx, t.ty);
    var spec, rest, areas' := specs[0], specs[1..], areas[1..];
    assert areas[0] == t.Area();
    var u := Carried(t, spec);
    var tail := PrintTiles(cfg.bypp, rest, areas');
    Associative(PrintTile(cfg.bypp, spec, areas[0]), tail, more);
    if spec.RawTile? {
      RawTileReadsBack(cfg, p, t, spec, tail + more);
    } else {
      PaintedTileReadsBack(cfg, p, t, spec, tail + more);
    }
    var step := NextTile(p, u, []);
    var paints := TilePaints(spec, areas[0], t.bg, t.fg);
    var a := NextRectangle(p, []);
    var r := Run(cfg, a.parser, more);
    if step.parser.armed.HexTile? {
      var next := step.parser.armed.tile;
      assert areas' == TilesFrom(16, next.rect, next.tx, next.ty);
      TilesReadBack(cfg, p, next, rest, more);
      assert [] + Run(cfg, step.parser, tail + more).trace == Run(cfg, step.parser, tail + more).trace;
      CallsAssociate(paints, AllPaints(rest, areas', u.bg, u.fg), a.calls + r.trace);
    } else {
      assert areas' == [] && rest == [] && tail == [] && tail + more == more;
      assert paints + [] == paints;
    }
  }

  /** Hextile parse undoes print. For any rectangle, one without height included, and any tile list
      section 7.7.4 allows for its 16x16 tiles: the header and the printed tiles are consumed exactly
      and make exactly their paints, then the parser moves on. */
  lemma {:induction false} HextileUndoesPrint(cfg: Config, p: Parser, rect: Rect, specs: seq<TileSpec>, more: Data)
    requires 0 < cfg.bypp && p.left > 0 && p.armed == RectHeader
    requires AllWellFormed(cfg.bypp, specs, Tiles(16, rect))
    ensures var q := HandleRectangle(cfg, p, rect, HEXTILE);
            var whole := Run(cfg, q.parser, PrintTiles(cfg.bypp, specs, Tiles(16, rect)) + more);
            var a := NextRectangle(p.(left := p.left - 1, rects := p.rects + [rect]), []);
            var r := Run(cfg, a.parser, more);
            whole.(trace := q.calls + whole.trace) ==
            r.(trace := [Header(rect, HEXTILE)] + (AllPaints(specs, Tiles(16, rect), None, None) + (a.calls + r.trace)))
  {
    hide Run, TilesFrom, AllPaints, PrintTiles, AllWellFormed;
    var q := HandleRectangle(cfg, p, rect, HEXTILE).parser;
    if rect.h == 0 {
      NoTiles(cfg.bypp, rect, specs);
      assert [] + more == more;
      var a := NextRectangle(p.(left := p.left - 1, rects := p.rects + [rect]), []);
      var calls := a.calls + Run(cfg, a.parser, more).trace;
      assert [] + calls == calls;
      CallsAssociate([Header(rect, HEXTILE)], a.calls, Run(cfg, a.parser, more).trace);
    } else {
      var t := Tile(rect, rect.x, rect.y, None, None);
      assert q == q.(armed := HexTile(t));
      TilesReadBack(cfg, q, t, specs, more);
    }
  }

  lemma {:induction false} NoTiles(bypp: nat, rect: Rect, specs: seq<TileSpec>)
    requires rect.h == 0 && AllWellFormed(bypp, specs, Tiles(16, rect))
    ensures PrintTiles(bypp, specs, Tiles(16, rect)) == []
    ensures AllPaints(specs, Tiles(16, rect), None, None) == []
  {
  }
}
