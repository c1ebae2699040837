/**
  An encoder for ZRLE tiles (section 7.7.5 of RFC 6143) and the proof that the decoder of
  vncdotool/rfb.py reads back the pixels it printed, one paint per 64x64 clipped tile, and
  rejects runs that overshoot their tile.
 */
module ZrleRoundTrip {
  import opened Bytes
  import opened Tiling
  import opened Zrle

  datatype PaletteRun = One(index: nat) | Many(index: nat, length: nat)

  /** Colours are CPIXELs: three bytes each. A packed tile is given by its rows of palette indices. */
  datatype TileSpec =
    | RawTile(pixels: seq<Data>)
    | SolidTile(color: Data)
    | PlainRuns(runs: seq<(Data, nat)>)
    | PaletteRuns(palette: seq<Data>, prs: seq<PaletteRun>)
    | PackedTile(palette: seq<Data>, rows: seq<seq<nat>>)

  predicate Cpixels(cs: seq<Data>) {
    forall i :: 0 <= i < |cs| ==> |cs[i]| == 3
  }

  predicate GoodRuns(runs: seq<(Data, nat)>) {
    forall i :: 0 <= i < |runs| ==> |runs[i].0| == 3 && 0 < runs[i].1
  }

  predicate GoodPaletteRuns(size: nat, runs: seq<PaletteRun>) {
    forall i :: 0 <= i < |runs| ==> runs[i].index < size && (runs[i].Many? ==> 0 < runs[i].length)
  }

  // ----- the pixels a tile stands for -----

  function Copies(c: Data, n: nat): (r: seq<Data>)
    ensures |r| == n
  {
    if n == 0 then [] else [c] + Copies(c, n - 1)
  }

  function Expand(runs: seq<(Data, nat)>): seq<Data> {
    if runs == [] then [] else Copies(runs[0].0, runs[0].1) + Expand(runs[1..])
  }

  function Span(r: PaletteRun): nat {
    if r.One? then 1 else r.length
  }

  function ExpandPalette(palette: seq<Data>, runs: seq<PaletteRun>): seq<Data>
    requires GoodPaletteRuns(|palette|, runs)
  {
    if runs == [] then []
    else Copies(palette[runs[0].index], Span(runs[0])) + ExpandPalette(palette, runs[1..])
  }

  function Pick(palette: seq<Data>, indices: seq<nat>): (r: seq<Data>)
    requires forall i :: 0 <= i < |indices| ==> indices[i] < |palette|
    ensures |r| == |indices|
  {
    seq(|indices|, i requires 0 <= i < |indices| => palette[indices[i]])
  }

  /** Row by row, all `area.w * area.h` of them. */
  function PixelsOf(t: TileSpec, area: Rect): seq<Data>
    requires WellFormed(t, area)
  {
    match t
    case RawTile(pixels) => pixels
    case SolidTile(c) => Copies(c, area.w * area.h)
    case PlainRuns(runs) => Expand(runs)
    case PaletteRuns(palette, runs) => ExpandPalette(palette, runs)
    case PackedTile(palette, rows) => Pick(palette, Join(rows))
  }

  predicate WellFormed(t: TileSpec, area: Rect) {
    match t
    case RawTile(pixels) => Cpixels(pixels) && |pixels| == area.w * area.h
    case SolidTile(c) => |c| == 3
    case PlainRuns(runs) => GoodRuns(runs) && |Expand(runs)| == area.w * area.h
    case PaletteRuns(palette, runs) =>
      && Cpixels(palette) && 0 < |palette| < 128
      && GoodPaletteRuns(|palette|, runs) && |ExpandPalette(palette, runs)| == area.w * area.h
    case PackedTile(palette, rows) =>
      PackedShape(palette, rows, area) && Unpadded(|palette|, area)
  }

  /** What may be packed: rows of indices into 2 to 16 colours. A tile without pixels may not: the
      decoder would read on to the end of the data. */
  predicate PackedShape(palette: seq<Data>, rows: seq<seq<nat>>, area: Rect) {
    && Cpixels(palette) && 2 <= |palette| <= 16
    && 0 < area.w && 0 < area.h == |rows| && GoodRows(|palette|, area.w, rows)
    && Below(|palette|, Join(rows))
  }

  /** The rows fill whole bytes, or there is only one. */
  predicate Unpadded(size: nat, area: Rect) {
    Fills(PerByte(IndexBits(size)), area.w) || area.h == 1
  }

  /** `n` indices fill whole bytes of `per`. */
  predicate Fills(per: nat, n: nat)
    requires 0 < per
  {
    n == 0 || (per <= n && Fills(per, n - per))
  }

  function Join(ss: seq<seq<nat>>): seq<nat> {
    if ss == [] then [] else ss[0] + Join(ss[1..])
  }

  predicate Below(size: nat, indices: seq<nat>) {
    forall i :: 0 <= i < |indices| ==> indices[i] < size
  }

  predicate GoodRows(size: nat, width: nat, rows: seq<seq<nat>>) {
    forall i :: 0 <= i < |rows| ==> |rows[i]| == width && Below(size, rows[i])
  }

  /** The bytes handed to updateRectangle: every colour with an opaque alpha. */
  function Opaque(c: Data): Data { c + [0xFF] }

  function Flat(pixels: seq<Data>): Data {
    if pixels == [] then [] else Opaque(pixels[0]) + Flat(pixels[1..])
  }

  lemma {:induction false} FlatConcat(a: seq<Data>, b: seq<Data>)
    ensures Flat(a + b) == Flat(a) + Flat(b)
    decreases |a|
  {
    if a == [] {
      assert a + b == b;
    } else {
      assert (a + b)[1..] == a[1..] + b;
      FlatConcat(a[1..], b);
    }
  }

  lemma {:induction false} FlatCopies(c: Data, n: nat)
    ensures Flat(Copies(c, n)) == Repeat(Opaque(c), n)
    decreases n
  {
    if n > 0 {
      FlatCopies(c, n - 1);
      assert Copies(c, n)[1..] == Copies(c, n - 1);
    }
  }

  // ----- printing -----

  function PrintColours(cs: seq<Data>): Data {
    if cs == [] then [] else cs[0] + PrintColours(cs[1..])
  }

  function RunBytes(n: nat): Data {
    if n < 255 then [n] else [255] + RunBytes(n - 255)
  }

  function PrintRuns(runs: seq<(Data, nat)>): Data
    requires GoodRuns(runs)
  {
    if runs == [] then [] else (runs[0].0 + RunBytes(runs[0].1 - 1)) + PrintRuns(runs[1..])
  }

  function PrintPaletteRun(r: PaletteRun): Data
    requires r.index < 128 && (r.Many? ==> 0 < r.length)
  {
    if r.One? then [r.index] else [128 + r.index] + RunBytes(r.length - 1)
  }

  function PrintPaletteRuns(runs: seq<PaletteRun>): Data
    requires GoodPaletteRuns(128, runs)
  {
    if runs == [] then [] else PrintPaletteRun(runs[0]) + PrintPaletteRuns(runs[1..])
  }

  function PackByte(bits: nat, g: seq<nat>): Byte
    requires bits in {1, 2, 4} && |g| == PerByte(bits) && Below(Base(bits), g)
  {
    if bits == 1 then
      assert g[0] < 2 && g[1] < 2 && g[2] < 2 && g[3] < 2 && g[4] < 2 && g[5] < 2 && g[6] < 2 && g[7] < 2;
      128 * g[0] + 64 * g[1] + 32 * g[2] + 16 * g[3] + 8 * g[4] + 4 * g[5] + 2 * g[6] + g[7]
    else if bits == 2 then
      assert g[0] < 4 && g[1] < 4 && g[2] < 4 && g[3] < 4;
      64 * g[0] + 16 * g[1] + 4 * g[2] + g[3]
    else
      assert g[0] < 16 && g[1] < 16;
      16 * g[0] + g[1]
  }

  function Base(bits: nat): nat {
    if bits == 1 then 2 else if bits == 2 then 4 else 16
  }

  /** A row with the zero bits that fill up its last byte, as section 7.7.5 has it. */
  function Padded(per: nat, row: seq<nat>): (r: seq<nat>)
    requires 0 < per
    ensures row <= r && Fills(per, |r|) && |r| < |row| + per
    ensures forall i :: |row| <= i < |r| ==> r[i] == 0
  {
    if row == [] then []
    else if |row| <= per then
      assert Fills(per, per - per);
      row + seq(per - |row|, i => 0)
    else
      var more := Padded(per, row[per..]);
      assert row == row[..per] + row[per..];
      row[..per] + more
  }

  lemma {:induction false} PaddedBelow(size: nat, per: nat, row: seq<nat>)
    requires 0 < size && 0 < per && Below(size, row)
    ensures Below(size, Padded(per, row))
  {
    hide Padded, Fills;
    forall i | 0 <= i < |Padded(per, row)| ensures Padded(per, row)[i] < size {
      assert i < |row| ==> Padded(per, row)[i] == row[i];
    }
  }

  /** Whole bytes of indices. */
  function Pack(bits: nat, s: seq<nat>): Data
    requires bits in {1, 2, 4} && Below(Base(bits), s) && Fills(PerByte(bits), |s|)
  {
    var per := PerByte(bits);
    if s == [] then [] else [PackByte(bits, s[..per])] + Pack(bits, s[per..])
  }

  /** Row by row, each padded to whole bytes. */
  function PackRows(bits: nat, rows: seq<seq<nat>>): Data
    requires bits in {1, 2, 4} && forall i :: 0 <= i < |rows| ==> Below(Base(bits), rows[i])
  {
    if rows == [] then []
    else
      PaddedBelow(Base(bits), PerByte(bits), rows[0]);
      Pack(bits, Padded(PerByte(bits), rows[0])) + PackRows(bits, rows[1..])
  }

  /** Indices into the palette fit the bits an index gets. */
  lemma {:induction false} PaletteFitsBits(size: nat, width: nat, rows: seq<seq<nat>>)
    requires 2 <= size <= 16 && GoodRows(size, width, rows)
    ensures size <= Base(IndexBits(size)) && IndexBits(size) in {1, 2, 4}
    ensures forall i :: 0 <= i < |rows| ==> Below(Base(IndexBits(size)), rows[i])
  {
  }

  function PrintPacked(palette: seq<Data>, rows: seq<seq<nat>>, area: Rect): Data
    requires PackedShape(palette, rows, area)
  {
    PaletteFitsBits(|palette|, area.w, rows);
    PrintColours(palette) + PackRows(IndexBits(|palette|), rows)
  }

  function PrintTile(t: TileSpec, area: Rect): Data
    requires WellFormed(t, area)
  {
    match t
    case RawTile(pixels) => [0] + PrintColours(pixels)
    case SolidTile(c) => [1] + c
    case PlainRuns(runs) => [128] + PrintRuns(runs)
    case PaletteRuns(palette, runs) => [128 + |palette|] + (PrintColours(palette) + PrintPaletteRuns(runs))
    case PackedTile(palette, rows) => [|palette|] + PrintPacked(palette, rows, area)
  }

  // ----- reading colours and runs -----

  lemma {:induction false} ColoursReadBack(cs: seq<Data>, more: Data)
    requires Cpixels(cs)
    ensures TakePixels(|cs|, PrintColours(cs) + more) == Ok(Flat(cs), more)
    decreases |cs|
  {
    if cs == [] {
      assert PrintColours(cs) + more == more;
    } else {
      OneColour(cs, more);
      ColoursReadBack(cs[1..], more);
    }
  }

  lemma {:induction false} OneColour(cs: seq<Data>, more: Data)
    requires cs != [] && |cs[0]| == 3
    ensures TakePixel(PrintColours(cs) + more) == Ok(Opaque(cs[0]), PrintColours(cs[1..]) + more)
  {
    var all := PrintColours(cs) + more;
    assert all == cs[0] + (PrintColours(cs[1..]) + more);
    assert all[..3] == cs[0] && all[3..] == PrintColours(cs[1..]) + more;
  }

  function Opaques(palette: seq<Data>): (r: seq<Data>)
    ensures |r| == |palette|
  {
    seq(|palette|, i requires 0 <= i < |palette| => Opaque(palette[i]))
  }

  lemma {:induction false} PaletteReadsBack(palette: seq<Data>, more: Data)
    requires Cpixels(palette)
    ensures TakePalette(|palette|, PrintColours(palette) + more) == Ok(Opaques(palette), more)
    decreases |palette|
  {
    if palette == [] {
      assert PrintColours(palette) + more == more;
    } else {
      OneColour(palette, more);
      PaletteReadsBack(palette[1..], more);
      assert Opaques(palette) == [Opaque(palette[0])] + Opaques(palette[1..]);
    }
  }

  lemma {:induction false} RunReadsBack(n: nat, more: Data)
    ensures TakeRunBytes(RunBytes(n) + more) == Ok(n, more)
    decreases n
  {
    var all := RunBytes(n) + more;
    if n < 255 {
      assert all[1..] == more;
    } else {
      assert all[1..] == RunBytes(n - 255) + more;
      RunReadsBack(n - 255, more);
    }
  }

  lemma {:induction false} OneRun(total: nat, done: nat, c: Data, n: nat, tail: Data)
    requires done < total && |c| == 3 && 0 < n
    ensures PlainRle(total, done, (c + RunBytes(n - 1)) + tail) ==
            Before(Repeat(Opaque(c), n), PlainRle(total, done + n, tail))
  {
    hide RunBytes, Repeat;
    var all := (c + RunBytes(n - 1)) + tail;
    assert all[..3] == c && all[3..] == RunBytes(n - 1) + tail;
    RunReadsBack(n - 1, tail);
  }

  /** Runs that add up to the tile are accepted. */
  lemma {:induction false} RunsReadBack(total: nat, done: nat, runs: seq<(Data, nat)>, more: Data)
    requires GoodRuns(runs) && done + |Expand(runs)| == total
    ensures PlainRle(total, done, PrintRuns(runs) + more) == Ok(Flat(Expand(runs)), more)
    decreases |runs|
  {
    hide RunBytes, Repeat;
    if runs == [] {
      assert PrintRuns(runs) + more == more;
    } else {
      var (c, n) := runs[0];
      var rest := runs[1..];
      Associative(c + RunBytes(n - 1), PrintRuns(rest), more);
      OneRun(total, done, c, n, PrintRuns(rest) + more);
      RunsReadBack(total, done + n, rest, more);
      FlatConcat(Copies(c, n), Expand(rest));
      FlatCopies(c, n);
    }
  }

  /** Only the last run goes beyond the tile, and it does. */
  predicate Overshoots(total: nat, done: nat, runs: seq<(Data, nat)>)
    decreases |runs|
  {
    && runs != [] && done < total
    && if |runs| == 1 then done + runs[0].1 > total
       else done + runs[0].1 < total && Overshoots(total, done + runs[0].1, runs[1..])
  }

  lemma {:induction false} OvershootIsRejected(total: nat, done: nat, runs: seq<(Data, nat)>, more: Data)
    requires GoodRuns(runs) && Overshoots(total, done, runs)
    ensures PlainRle(total, done, PrintRuns(runs) + more) == Fail(TooManyPixels)
    decreases |runs|
  {
    hide RunBytes, Repeat;
    var (c, n) := runs[0];
    var rest := runs[1..];
    Associative(c + RunBytes(n - 1), PrintRuns(rest), more);
    OneRun(total, done, c, n, PrintRuns(rest) + more);
    if |runs| > 1 {
      OvershootIsRejected(total, done + n, rest, more);
    }
  }

  lemma {:induction false} ShortRun(pal: seq<Data>, total: nat, done: nat, i: nat, tail: Data)
    requires i < |pal| < 128 && done < total
    ensures PaletteRle(pal, total, done, [i] + tail) == Before(pal[i], PaletteRle(pal, total, done + 1, tail))
  {
    hide TakeRunBytes;
    Peel([i], tail);
  }

  lemma {:induction false} LongRun(pal: seq<Data>, total: nat, done: nat, i: nat, n: nat, body: Data, tail: Data)
    requires i < |pal| < 128 && done < total && TakeRunBytes(body) == Ok(n, tail)
    ensures PaletteRle(pal, total, done, [128 + i] + body) ==
            Before(Repeat(pal[i], n + 1), PaletteRle(pal, total, done + n + 1, tail))
  {
    hide TakeRunBytes, Repeat;
    Peel([128 + i], body);
  }

  lemma {:induction false} OnePaletteRun(palette: seq<Data>, total: nat, done: nat, run: PaletteRun, tail: Data)
    requires |palette| < 128 && run.index < |palette| && (run.Many? ==> 0 < run.length) && done < total
    ensures PaletteRle(Opaques(palette), total, done, PrintPaletteRun(run) + tail) ==
            Before(Repeat(Opaque(palette[run.index]), Span(run)),
                   PaletteRle(Opaques(palette), total, done + Span(run), tail))
  {
    hide RunBytes, Opaque, Repeat, TakeRunBytes, PaletteRle;
    var pal := Opaques(palette);
    if run.One? {
      ShortRun(pal, total, done, run.index, tail);
      Once(pal[run.index]);
    } else {
      var body := RunBytes(run.length - 1);
      Associative([128 + run.index], body, tail);
      RunReadsBack(run.length - 1, tail);
      LongRun(pal, total, done, run.index, run.length - 1, body + tail, tail);
    }
  }

  lemma {:induction false} Once(c: Data)
    ensures Repeat(c, 1) == c
  {
    assert Repeat(c, 1) == c + Repeat(c, 0) == c + [];
  }

  /** The same for palette RLE, runs of one and longer runs alike. */
  lemma {:induction false} PaletteRunsReadBack(palette: seq<Data>, total: nat, done: nat, runs: seq<PaletteRun>,
                                               more: Data)
    requires |palette| < 128 && GoodPaletteRuns(|palette|, runs)
    requires done + |ExpandPalette(palette, runs)| == total
    ensures PaletteRle(Opaques(palette), total, done, PrintPaletteRuns(runs) + more) ==
            Ok(Flat(ExpandPalette(palette, runs)), more)
    decreases |runs|
  {
    hide PrintPaletteRun, Repeat;
    if runs == [] {
      assert PrintPaletteRuns(runs) + more == more;
    } else {
      var run, rest := runs[0], runs[1..];
      var c, n := palette[run.index], Span(run);
      Associative(PrintPaletteRun(run), PrintPaletteRuns(rest), more);
      OnePaletteRun(palette, total, done, run, PrintPaletteRuns(rest) + more);
      PaletteRunsReadBack(palette, total, done + n, rest, more);
      FlatConcat(Copies(c, n), ExpandPalette(palette, rest));
      FlatCopies(c, n);
    }
  }

  predicate PaletteOvershoots(total: nat, done: nat, runs: seq<PaletteRun>)
    decreases |runs|
  {
    && runs != [] && done < total
    && if |runs| == 1 then done + Span(runs[0]) > total
       else done + Span(runs[0]) < total && PaletteOvershoots(total, done + Span(runs[0]), runs[1..])
  }

  lemma {:induction false} PaletteOvershootIsRejected(palette: seq<Data>, total: nat, done: nat,
                                                      runs: seq<PaletteRun>, more: Data)
    requires |palette| < 128 && GoodPaletteRuns(|palette|, runs) && PaletteOvershoots(total, done, runs)
    ensures PaletteRle(Opaques(palette), total, done, PrintPaletteRuns(runs) + more) == Fail(TooManyPixels)
    decreases |runs|
  {
    hide PrintPaletteRun, Repeat;
    var run, rest := runs[0], runs[1..];
    Associative(PrintPaletteRun(run), PrintPaletteRuns(rest), more);
    OnePaletteRun(palette, total, done, run, PrintPaletteRuns(rest) + more);
    if |runs| > 1 {
      PaletteOvershootIsRejected(palette, total, done + Span(run), rest, more);
    }
  }

  // ----- packed palettes -----

  lemma {:induction false} BitsReadBack(g: seq<nat>)
    requires |g| == 8 && Below(2, g)
    ensures Indices(1, PackByte(1, g)) == g
  {
    var b: int := PackByte(1, g);
    assert g[0] < 2 && g[1] < 2 && g[2] < 2 && g[3] < 2 && g[4] < 2 && g[5] < 2 && g[6] < 2 && g[7] < 2;
    var c1 := 2 * g[0] + g[1];
    var c2 := 2 * c1 + g[2];
    var c3 := 2 * c2 + g[3];
    var c4 := 2 * c3 + g[4];
    var c5 := 2 * c4 + g[5];
    var c6 := 2 * c5 + g[6];
    HalfOf(b, c6, g[7]);
    HalfOf(c6, c5, g[6]);
    HalfOf(c5, c4, g[5]);
    HalfOf(c4, c3, g[4]);
    HalfOf(c3, c2, g[3]);
    HalfOf(c2, c1, g[2]);
    HalfOf(c1, g[0], g[1]);
    assert b / 4 == c5 && b / 8 == c4 && b / 16 == c3;
    assert b / 32 == c2 && b / 64 == c1 && b / 128 == g[0];
  }

  lemma {:induction false} HalfOf(b: int, q: int, g: int)
    requires b == 2 * q + g && 0 <= g < 2
    ensures b / 2 == q && b % 2 == g
  {
  }

  lemma {:induction false} DibitsReadBack(g: seq<nat>)
    requires |g| == 4 && Below(4, g)
    ensures Indices(2, PackByte(2, g)) == g
  {
    var b: int := PackByte(2, g);
    assert g[0] < 4 && g[1] < 4 && g[2] < 4 && g[3] < 4;
    assert b / 4 == 16 * g[0] + 4 * g[1] + g[2];
    assert b / 16 == 4 * g[0] + g[1];
    assert b / 64 == g[0];
  }

  lemma {:induction false} ByteReadsBack(bits: nat, g: seq<nat>)
    requires bits in {1, 2, 4} && |g| == PerByte(bits) && Below(Base(bits), g)
    ensures Indices(bits, PackByte(bits, g)) == g
  {
    if bits == 1 {
      BitsReadBack(g);
    } else if bits == 2 {
      DibitsReadBack(g);
    } else {
      assert g[0] < 16 && g[1] < 16;
    }
  }

  /** Where a byte boundary falls after `count` indices. */
  function Used(per: nat, count: nat): (n: nat)
    requires 0 < per
    ensures count <= n < count + per
  {
    if count == 0 then 0 else if count <= per then per else per + Used(per, count - per)
  }

  lemma {:induction false} UsedFits(per: nat, count: nat, n: nat)
    requires 0 < per && count <= n && Fills(per, n)
    ensures Used(per, count) <= n && Fills(per, n - Used(per, count))
    ensures n < count + per ==> Used(per, count) == n
    decreases n
  {
    if 0 < count {
      UsedFits(per, if count <= per then 0 else count - per, n - per);
    }
  }

  lemma {:induction false} FillsAdd(per: nat, m: nat, n: nat)
    requires 0 < per && Fills(per, m) && Fills(per, n)
    ensures Fills(per, m + n)
    decreases m
  {
    if m != 0 {
      FillsAdd(per, m - per, n);
    }
  }

  /** The generators read a packed stream up to `count` indices, and the byte those end in. */
  lemma {:induction false} StreamReads(bits: nat, count: nat, s: seq<nat>, more: Data)
    requires bits in {1, 2, 4} && Below(Base(bits), s) && Fills(PerByte(bits), |s|) && 0 < count <= |s|
    ensures Used(PerByte(bits), count) <= |s| && Fills(PerByte(bits), |s| - Used(PerByte(bits), count))
    ensures TakeIndices(bits, count, Pack(bits, s) + more) ==
            Ok(s[..count], Pack(bits, s[Used(PerByte(bits), count)..]) + more)
    decreases |s|
  {
    hide Indices, PackByte, Base, TakeIndices, Pack, Fills, Used, Below, PerByte;
    var per := PerByte(bits);
    UsedFits(per, count, |s|);
    PackHead(bits, s);
    BelowParts(Base(bits), s, per);
    BelowParts(Base(bits), s, Used(per, count));
    var head, rest := s[..per], s[per..];
    Associative([PackByte(bits, head)], Pack(bits, rest), more);
    OneByteRead(bits, count, head, Pack(bits, rest) + more);
    UsedStep(per, count);
    if count <= per {
      assert head[..count] == s[..count];
    } else {
      StreamReads(bits, count - per, rest, more);
      Cut(s, per, count, Used(per, count));
    }
  }

  lemma {:induction false} UsedStep(per: nat, count: nat)
    requires 0 < per && 0 < count
    ensures Used(per, count) == if count <= per then per else per + Used(per, count - per)
  {
  }

  lemma {:induction false} BelowParts(size: nat, s: seq<nat>, n: nat)
    requires Below(size, s) && n <= |s|
    ensures Below(size, s[..n]) && Below(size, s[n..])
  {
  }

  lemma {:induction false} Cut(s: seq<nat>, per: nat, count: nat, used: nat)
    requires per <= count <= used <= |s|
    ensures s[..per] + s[per..][..count - per] == s[..count] && s[per..][used - per..] == s[used..]
  {
  }

  lemma {:induction false} PackHead(bits: nat, s: seq<nat>)
    requires bits in {1, 2, 4} && Below(Base(bits), s) && Fills(PerByte(bits), |s|) && s != []
    ensures 0 < PerByte(bits) <= |s| && Fills(PerByte(bits), |s| - PerByte(bits))
    ensures Pack(bits, s) == [PackByte(bits, s[..PerByte(bits)])] + Pack(bits, s[PerByte(bits)..])
  {
    hide PackByte, Base;
  }

  lemma {:induction false} OneByteRead(bits: nat, count: nat, g: seq<nat>, rest: Data)
    requires bits in {1, 2, 4} && |g| == PerByte(bits) && Below(Base(bits), g) && 0 < count
    ensures TakeIndices(bits, count, [PackByte(bits, g)] + rest) ==
            if count <= |g| then Ok(g[..count], rest)
            else match TakeIndices(bits, count - |g|, rest)
                 case Fail(e) => Fail(e)
                 case Ok(more, rest) => Ok(g + more, rest)
  {
    hide Indices, PackByte, Base;
    Peel([PackByte(bits, g)], rest);
    ByteReadsBack(bits, g);
  }

  lemma {:induction false} PackConcat(bits: nat, a: seq<nat>, b: seq<nat>)
    requires bits in {1, 2, 4} && Below(Base(bits), a) && Below(Base(bits), b)
    requires Fills(PerByte(bits), |a|) && Fills(PerByte(bits), |b|)
    ensures Below(Base(bits), a + b) && Fills(PerByte(bits), |a + b|)
    ensures Pack(bits, a + b) == Pack(bits, a) + Pack(bits, b)
    decreases |a|
  {
    hide PackByte, Base, Pack, Fills, PerByte;
    var per := PerByte(bits);
    FillsAdd(per, |a|, |b|);
    if a == [] {
      assert a + b == b;
      NothingPacked(bits);
      assert [] + Pack(bits, b) == Pack(bits, b);
    } else {
      PackHead(bits, a);
      PackHead(bits, a + b);
      assert (a + b)[per..] == a[per..] + b && (a + b)[..per] == a[..per];
      PackConcat(bits, a[per..], b);
      Associative([PackByte(bits, a[..per])], Pack(bits, a[per..]), Pack(bits, b));
    }
  }

  /** What the decoder takes the rows for: one stream, padding and all. */
  function Stream(per: nat, rows: seq<seq<nat>>): (s: seq<nat>)
    requires 0 < per
  {
    if rows == [] then [] else Padded(per, rows[0]) + Stream(per, rows[1..])
  }

  lemma {:induction false} RowsAreAStream(bits: nat, size: nat, rows: seq<seq<nat>>)
    requires bits in {1, 2, 4} && 0 < size <= Base(bits) && forall i :: 0 <= i < |rows| ==> Below(size, rows[i])
    ensures var s := Stream(PerByte(bits), rows);
            && Below(size, s) && Below(Base(bits), s) && Fills(PerByte(bits), |s|) && |Join(rows)| <= |s|
            && (forall i :: 0 <= i < |rows| ==> Below(Base(bits), rows[i]))
            && PackRows(bits, rows) == Pack(bits, s)
    decreases |rows|
  {
    hide PackByte, Base, Padded, Pack;
    var per := PerByte(bits);
    if rows == [] {
      NothingPacked(bits);
    } else {
      RowsAreAStream(bits, size, rows[1..]);
      PaddedBelow(size, per, rows[0]);
      PaddedBelow(Base(bits), per, rows[0]);
      PackConcat(bits, Padded(per, rows[0]), Stream(per, rows[1..]));
    }
  }

  lemma {:induction false} NothingPacked(bits: nat)
    requires bits in {1, 2, 4}
    ensures Pack(bits, []) == []
  {
  }

  lemma {:induction false} WholeBytesStay(per: nat, row: seq<nat>)
    requires 0 < per
    ensures Padded(per, row) == row <==> Fills(per, |row|)
    decreases |row|
  {
    if row != [] && per < |row| {
      WholeBytesStay(per, row[per..]);
      assert row == row[..per] + row[per..];
      if Padded(per, row) == row {
        assert Padded(per, row)[per..] == Padded(per, row[per..]);
      }
    }
  }

  /** Rows that fill whole bytes leave no padding. */
  lemma {:induction false} WholeRowsStream(per: nat, width: nat, rows: seq<seq<nat>>)
    requires 0 < per && Fills(per, width) && forall i :: 0 <= i < |rows| ==> |rows[i]| == width
    ensures Stream(per, rows) == Join(rows)
    decreases |rows|
  {
    hide Padded, Fills;
    if rows != [] {
      WholeBytesStay(per, rows[0]);
      WholeRowsStream(per, width, rows[1..]);
    }
  }

  lemma {:induction false} OneMore(w: nat, n: nat)
    ensures w * (n + 1) == w * n + w
  {
  }

  /** `width` indices a row. */
  lemma {:induction false} RowsCount(width: nat, rows: seq<seq<nat>>)
    requires forall i :: 0 <= i < |rows| ==> |rows[i]| == width
    ensures |Join(rows)| == width * |rows|
    decreases |rows|
  {
    if rows != [] {
      RowsCount(width, rows[1..]);
      OneMore(width, |rows[1..]|);
    }
  }

  lemma {:induction false} LookUpPicks(palette: seq<Data>, indices: seq<nat>)
    requires forall i :: 0 <= i < |indices| ==> indices[i] < |palette|
    ensures LookUp(Opaques(palette), indices) == Some(Flat(Pick(palette, indices)))
    decreases |indices|
  {
    if indices != [] {
      LookUpPicks(palette, indices[1..]);
      assert Pick(palette, indices) == [palette[indices[0]]] + Pick(palette, indices[1..]);
    }
  }

  /** A tile stands for one colour per pixel of its area. */
  lemma {:induction false} OneColourPerPixel(t: TileSpec, area: Rect)
    requires WellFormed(t, area)
    ensures |PixelsOf(t, area)| == area.w * area.h
  {
    if t.PackedTile? {
      RowsCount(area.w, t.rows);
    }
  }

  // ----- one tile -----

  /** The paint a tile must cause. */
  function PaintOf(t: TileSpec, area: Rect): Paint
    requires WellFormed(t, area)
  {
    if t.SolidTile? then Solid(area.x, area.y, area.w, area.h, Opaque(t.color))
    else Pixels(area.x, area.y, area.w, area.h, Flat(PixelsOf(t, area)))
  }

  lemma {:induction false} NonEmpty(area: Rect)
    requires 0 < area.w && 0 < area.h
    ensures 0 < area.w * area.h
  {
  }

  /** What the decoder makes of any packed tile, whatever its width: the first `w * h` indices of
      the padded stream. */
  lemma {:induction false} PackedReads(palette: seq<Data>, rows: seq<seq<nat>>, area: Rect, more: Data)
    requires PackedShape(palette, rows, area)
    ensures var per := PerByte(IndexBits(|palette|));
            var s, count := Stream(per, rows), area.w * area.h;
            && 0 < count == |Join(rows)| <= |s| && Below(|palette|, s[..count])
            && Used(per, count) <= |s| && Fills(per, |s|) && Fills(per, |s| - Used(per, count))
            && Below(Base(IndexBits(|palette|)), s[Used(per, count)..])
            && TakePacked(|palette|, count, PrintPacked(palette, rows, area) + more) ==
               Ok(Flat(Pick(palette, s[..count])), Pack(IndexBits(|palette|), s[Used(per, count)..]) + more)
  {
    hide Flat, Pack, PackRows, Pick, Base, TakeIndices, TakeLooked, Stream, Fills;
    var bits, per, count := IndexBits(|palette|), PerByte(IndexBits(|palette|)), area.w * area.h;
    var s := Stream(per, rows);
    NonEmpty(area);
    RowsCount(area.w, rows);
    PaletteFitsBits(|palette|, area.w, rows);
    RowsAreAStream(bits, |palette|, rows);
    Associative(PrintColours(palette), Pack(bits, s), more);
    PaletteReadsBack(palette, Pack(bits, s) + more);
    StreamReads(bits, count, s, more);
    LookedIsLookUp(Opaques(palette), bits, count, Pack(bits, s) + more);
    LookUpPicks(palette, s[..count]);
  }

  predicate PackedComesBack(palette: seq<Data>, rows: seq<seq<nat>>, area: Rect, more: Data)
    requires PackedShape(palette, rows, area)
  {
    TakePacked(|palette|, area.w * area.h, PrintPacked(palette, rows, area) + more) ==
    Ok(Flat(Pick(palette, Join(rows))), more)
  }

  lemma {:induction false} PackedReadsBack(palette: seq<Data>, rows: seq<seq<nat>>, area: Rect, more: Data)
    requires PackedShape(palette, rows, area) && Unpadded(|palette|, area)
    ensures PackedComesBack(palette, rows, area, more)
  {
    hide Flat, Pack, Pick, TakePacked, PrintPacked, PackedShape, Base;
    PackedReads(palette, rows, area, more);
    var per, count := PerByte(IndexBits(|palette|)), area.w * area.h;
    var s := Stream(per, rows);
    StreamIsRows(palette, rows, area);
    UsedFits(per, count, |s|);
    assert s[|s|..] == [];
    NothingPacked(IndexBits(|palette|));
    assert [] + more == more;
  }

  lemma {:induction false} StreamIsRows(palette: seq<Data>, rows: seq<seq<nat>>, area: Rect)
    requires PackedShape(palette, rows, area) && Unpadded(|palette|, area)
    ensures var s := Stream(PerByte(IndexBits(|palette|)), rows);
            area.w * area.h <= |s| && s[..area.w * area.h] == Join(rows)
            && |s| < area.w * area.h + PerByte(IndexBits(|palette|))
  {
    hide Padded, Fills, Below;
    var per := PerByte(IndexBits(|palette|));
    RowsCount(area.w, rows);
    if Fills(per, area.w) {
      WholeRowsStream(per, area.w, rows);
    } else {
      var row := rows[0];
      assert rows[1..] == [] && Stream(per, rows[1..]) == [] && Join(rows[1..]) == [];
      assert Stream(per, rows) == Padded(per, row) && Join(rows) == row;
    }
  }

  /** Row padding is not skipped but read as pixels: at the first pixel of the second row the decoder
      sees index 0, whatever was there. */
  lemma {:induction false} PaddingIsRead(palette: seq<Data>, rows: seq<seq<nat>>, area: Rect, more: Data)
    requires PackedShape(palette, rows, area) && !Unpadded(|palette|, area)
    requires palette[rows[1][0]] != palette[0]
    ensures !PackedComesBack(palette, rows, area, more)
  {
    hide Flat, Pack, PrintPacked, TakePacked, Base, Fills;
    PackedReads(palette, rows, area, more);
    var per, count := PerByte(IndexBits(|palette|)), area.w * area.h;
    var s := Stream(per, rows);
    SecondRow(per, area.w, rows);
    RowsCount(area.w, rows);
    var read, meant := Pick(palette, s[..count]), Pick(palette, Join(rows));
    assert read[area.w] == palette[0] && meant[area.w] == palette[rows[1][0]];
    FlatAt(read, area.w);
    FlatAt(meant, area.w);
    assert Opaque(palette[0])[..3] == palette[0] && Opaque(palette[rows[1][0]])[..3] == palette[rows[1][0]];
  }

  lemma {:induction false} SecondRow(per: nat, width: nat, rows: seq<seq<nat>>)
    requires 0 < per && 0 < width && 2 <= |rows| && !Fills(per, width)
    requires forall i :: 0 <= i < |rows| ==> |rows[i]| == width
    ensures width < |Join(rows)| && Join(rows)[width] == rows[1][0]
    ensures width < |Stream(per, rows)| && Stream(per, rows)[width] == 0
  {
    hide Padded, Fills;
    WholeBytesStay(per, rows[0]);
    assert rows[1..][0] == rows[1];
  }

  lemma {:induction false} FlatAt(cs: seq<Data>, i: nat)
    requires Cpixels(cs) && i < |cs|
    ensures 4 * i + 4 <= |Flat(cs)| && Flat(cs)[4 * i..4 * i + 4] == Opaque(cs[i])
    decreases i
  {
    if i == 0 {
      assert Flat(cs)[..4] == Opaque(cs[0]);
    } else {
      FlatAt(cs[1..], i - 1);
      assert Flat(cs)[4..] == Flat(cs[1..]);
      assert Flat(cs)[4 * i..4 * i + 4] == Flat(cs)[4..][4 * (i - 1)..4 * (i - 1) + 4];
    }
  }

  /** A palette and a size can be packed without loss exactly when rows fill whole bytes, or there
      is only one. */
  lemma {:induction false} PackedReadsBackExactly(palette: seq<Data>, area: Rect)
    requires Cpixels(palette) && 2 <= |palette| <= 16 && palette[0] != palette[1]
    requires 0 < area.w && 0 < area.h
    ensures (forall rows, more :: PackedShape(palette, rows, area) ==> PackedComesBack(palette, rows, area, more)) <==>
            Unpadded(|palette|, area)
  {
    hide PackedComesBack, Fills;
    if Unpadded(|palette|, area) {
      forall rows, more | PackedShape(palette, rows, area) ensures PackedComesBack(palette, rows, area, more) {
        PackedReadsBack(palette, rows, area, more);
      }
    } else {
      var rows := seq(area.h, y => seq(area.w, x => if y == 1 && x == 0 then 1 else 0));
      AllBelow(|palette|, rows);
      PaddingIsRead(palette, rows, area, []);
    }
  }

  lemma {:induction false} AllBelow(size: nat, rows: seq<seq<nat>>)
    requires forall i :: 0 <= i < |rows| ==> Below(size, rows[i])
    ensures Below(size, Join(rows))
    decreases |rows|
  {
    if rows != [] {
      AllBelow(size, rows[1..]);
    }
  }

  /** Two black and white pixels, one above the other: the second byte is left for the next tile and
      both pixels come out black. */
  lemma {:induction false} NarrowTileFails(black: Data, white: Data, more: Data)
    requires |black| == 3 && |white| == 3
    ensures PackedShape([black, white], [[0], [1]], Rect(0, 0, 1, 2))
    ensures TakePacked(2, 2, PrintPacked([black, white], [[0], [1]], Rect(0, 0, 1, 2)) + more) ==
            Ok(Opaque(black) + Opaque(black), [128] + more)
  {
    var palette, rows: seq<seq<nat>>, area := [black, white], [[0], [1]], Rect(0, 0, 1, 2);
    AllBelow(2, rows);
    hide Flat, Pack, TakePacked, PrintPacked, Base;
    PackedReads(palette, rows, area, more);
    var first: seq<nat>, second: seq<nat> := [0, 0, 0, 0, 0, 0, 0, 0], [1, 0, 0, 0, 0, 0, 0, 0];
    assert Padded(8, rows[0]) == first && Padded(8, rows[1]) == second;
    assert rows[1..] == [rows[1]] && rows[1..][1..] == [];
    assert Stream(8, rows[1..]) == second + Stream(8, []) == second;
    assert Stream(8, rows) == first + second;
    var s := Stream(8, rows);
    assert s[8..] == second && s[..2] == [0, 0];
    assert Pick(palette, s[..2]) == [black, black];
    PackOne(second);
    FlatTwo(black);
  }

  lemma {:induction false} PackOne(g: seq<nat>)
    requires g == [1, 0, 0, 0, 0, 0, 0, 0]
    ensures Below(Base(1), g) && Fills(8, 8) && Pack(1, g) == [128]
  {
    assert Fills(8, 0);
    assert g[..8] == g && g[8..] == [];
  }

  lemma {:induction false} FlatTwo(c: Data)
    ensures Flat([c, c]) == Opaque(c) + Opaque(c)
  {
    assert [c, c][1..] == [c] && [c][1..] == [];
    assert Flat([c]) == Opaque(c) + Flat([]) == Opaque(c);
  }

  lemma {:induction false} RawReadsBack(pixels: seq<Data>, area: Rect, more: Data)
    requires WellFormed(RawTile(pixels), area)
    ensures TakeTile(area.x, area.y, area.w, area.h, 0, PrintColours(pixels) + more) ==
            Ok(PaintOf(RawTile(pixels), area), more)
  {
    hide Flat, TakePixels;
    ColoursReadBack(pixels, more);
  }

  lemma {:induction false} SolidReadsBack(c: Data, area: Rect, more: Data)
    requires |c| == 3
    ensures TakeTile(area.x, area.y, area.w, area.h, 1, c + more) == Ok(PaintOf(SolidTile(c), area), more)
  {
    assert (c + more)[..3] == c && (c + more)[3..] == more;
  }

  lemma {:induction false} PlainTileReadsBack(runs: seq<(Data, nat)>, area: Rect, more: Data)
    requires WellFormed(PlainRuns(runs), area)
    ensures TakeTile(area.x, area.y, area.w, area.h, 128, PrintRuns(runs) + more) ==
            Ok(PaintOf(PlainRuns(runs), area), more)
  {
    hide Flat, PlainRle, Expand, PrintRuns;
    RunsReadBack(area.w * area.h, 0, runs, more);
  }

  lemma {:induction false} PaletteTileReadsBack(palette: seq<Data>, runs: seq<PaletteRun>, area: Rect, more: Data)
    requires WellFormed(PaletteRuns(palette, runs), area)
    ensures TakeTile(area.x, area.y, area.w, area.h, 128 + |palette|,
                     (PrintColours(palette) + PrintPaletteRuns(runs)) + more) ==
            Ok(PaintOf(PaletteRuns(palette, runs), area), more)
  {
    hide Flat, PaletteRle, TakePalette, ExpandPalette, PrintPaletteRuns, PrintColours;
    var body := PrintPaletteRuns(runs);
    Associative(PrintColours(palette), body, more);
    PaletteReadsBack(palette, body + more);
    PaletteRunsReadBack(palette, area.w * area.h, 0, runs, more);
  }

  lemma {:induction false} PackedTileReadsBack(palette: seq<Data>, rows: seq<seq<nat>>, area: Rect, more: Data)
    requires WellFormed(PackedTile(palette, rows), area)
    ensures TakeTile(area.x, area.y, area.w, area.h, |palette|, PrintPacked(palette, rows, area) + more) ==
            Ok(PaintOf(PackedTile(palette, rows), area), more)
  {
    hide Flat, TakePacked, PrintPacked, Unpadded;
    PackedReadsBack(palette, rows, area, more);
  }

  lemma {:induction false} TileReadsBack(t: TileSpec, area: Rect, more: Data)
    requires WellFormed(t, area)
    ensures var printed := PrintTile(t, area) + more;
            TakeTile(area.x, area.y, area.w, area.h, printed[0], printed[1..]) == Ok(PaintOf(t, area), more)
  {
    hide PaintOf, TakeTile, PrintRuns, PrintPaletteRuns, PrintColours, PrintPacked, PackedShape, Unpadded;
    hide Expand, ExpandPalette;
    match t {
      case RawTile(pixels) =>
        Tagged(0, PrintColours(pixels), more);
        RawReadsBack(pixels, area, more);
      case SolidTile(c) =>
        Tagged(1, c, more);
        SolidReadsBack(c, area, more);
      case PlainRuns(runs) =>
        Tagged(128, PrintRuns(runs), more);
        PlainTileReadsBack(runs, area, more);
      case PaletteRuns(palette, runs) =>
        Tagged(128 + |palette|, PrintColours(palette) + PrintPaletteRuns(runs), more);
        PaletteTileReadsBack(palette, runs, area, more);
      case PackedTile(palette, rows) =>
        PackedSize(palette, rows, area);
        Tagged(|palette|, PrintPacked(palette, rows, area), more);
        PackedTileReadsBack(palette, rows, area, more);
    }
  }

  lemma {:induction false} Tagged(sub: Byte, body: Data, more: Data)
    ensures (([sub] + body) + more)[0] == sub && (([sub] + body) + more)[1..] == body + more
  {
  }

  lemma {:induction false} PackedSize(palette: seq<Data>, rows: seq<seq<nat>>, area: Rect)
    requires PackedShape(palette, rows, area)
    ensures 2 <= |palette| <= 16
  {
  }

  // ----- the rectangle -----

  predicate AllWellFormed(specs: seq<TileSpec>, areas: seq<Rect>) {
    |specs| == |areas| && forall i :: 0 <= i < |specs| ==> WellFormed(specs[i], areas[i])
  }

  function PrintTiles(specs: seq<TileSpec>, areas: seq<Rect>): Data
    requires AllWellFormed(specs, areas)
    decreases |specs|
  {
    if specs == [] then [] else PrintTile(specs[0], areas[0]) + PrintTiles(specs[1..], areas[1..])
  }

  function PaintsOf(specs: seq<TileSpec>, areas: seq<Rect>): seq<Paint>
    requires AllWellFormed(specs, areas)
  {
    seq(|specs|, i requires 0 <= i < |specs| => PaintOf(specs[i], areas[i]))
  }

  lemma {:induction false} OneTile(r: Rect, tx: nat, ty: nat, t: TileSpec, area: Rect, rest: Data)
    requires area.x == tx && area.y == ty && area.w == Clip(r.x + r.w - tx) && area.h == Clip(r.y + r.h - ty)
    requires WellFormed(t, area)
    ensures Decode(r, tx, ty, PrintTile(t, area) + rest) ==
            var d := if tx + 64 >= r.x + r.w then Decode(r, r.x, ty + 64, rest) else Decode(r, tx + 64, ty, rest);
            d.(paints := [PaintOf(t, area)] + d.paints)
  {
    hide WellFormed, TakeTile, PaintOf, PrintTile, Clip;
    TileReadsBack(t, area, rest);
    NeverEmpty(t, area);
  }

  lemma {:induction false} TilesReadBack(r: Rect, tx: nat, ty: nat, specs: seq<TileSpec>)
    requires r.x <= tx <= r.x + r.w && (tx == r.x || tx < r.x + r.w)
    requires AllWellFormed(specs, TilesFrom(64, r, tx, ty))
    ensures Decode(r, tx, ty, PrintTiles(specs, TilesFrom(64, r, tx, ty))) ==
            Decoded(PaintsOf(specs, TilesFrom(64, r, tx, ty)), None)
    decreases |specs|
  {
    hide WellFormed, PaintOf, PrintTile, Decode, TilesFrom, PaintsOf;
    var areas := TilesFrom(64, r, tx, ty);
    if specs == [] {
      PaintsOfNothing(specs, areas);
      assert Decode(r, tx, ty, []) == Decoded([], None) by { NoTiles(r, tx, ty); }
    } else {
      var last := tx + 64 >= r.x + r.w;
      Walk(r, tx, ty);
      OneTile(r, tx, ty, specs[0], areas[0], PrintTiles(specs[1..], areas[1..]));
      TilesReadBack(r, if last then r.x else tx + 64, if last then ty + 64 else ty, specs[1..]);
      PaintsOfMore(specs, areas);
    }
  }

  lemma {:induction false} Walk(r: Rect, tx: nat, ty: nat)
    requires r.x <= tx <= r.x + r.w && TilesFrom(64, r, tx, ty) != []
    ensures var areas := TilesFrom(64, r, tx, ty);
            && areas[0].x == tx && areas[0].y == ty
            && areas[0].w == Clip(r.x + r.w - tx) && areas[0].h == Clip(r.y + r.h - ty)
            && areas[1..] == if tx + 64 >= r.x + r.w then TilesFrom(64, r, r.x, ty + 64)
                             else TilesFrom(64, r, tx + 64, ty)
  {
  }

  lemma {:induction false} PaintsOfNothing(specs: seq<TileSpec>, areas: seq<Rect>)
    requires AllWellFormed(specs, areas) && specs == []
    ensures PaintsOf(specs, areas) == []
  {
  }

  lemma {:induction false} PaintsOfMore(specs: seq<TileSpec>, areas: seq<Rect>)
    requires AllWellFormed(specs, areas) && specs != []
    ensures PaintsOf(specs, areas) == [PaintOf(specs[0], areas[0])] + PaintsOf(specs[1..], areas[1..])
  {
    hide PaintOf, WellFormed;
  }

  lemma {:induction false} NoTiles(r: Rect, tx: nat, ty: nat)
    ensures Decode(r, tx, ty, []) == Decoded([], None)
  {
  }

  lemma {:induction false} NeverEmpty(t: TileSpec, area: Rect)
    requires WellFormed(t, area)
    ensures PrintTile(t, area) != []
  {
  }

  /** ZRLE parse undoes print: for any rectangle and any encoding of its 64x64 clipped tiles, the
      decoder makes exactly one paint per tile, in order, each with that tile's pixels, and no error. */
  lemma {:induction false} ZrleUndoesPrint(r: Rect, specs: seq<TileSpec>)
    requires AllWellFormed(specs, Tiles(64, r))
    ensures Decode(r, r.x, r.y, PrintTiles(specs, Tiles(64, r))) == Decoded(PaintsOf(specs, Tiles(64, r)), None)
  {
    hide AllWellFormed, TilesFrom, Decode, PrintTiles, PaintsOf;
    TilesReadBack(r, r.x, r.y, specs);
  }

  // ----- tiles that fail -----

  /** A tile that cannot be read ends the rectangle: the well-formed tiles before it have been
      painted, it has not, and what follows it is not looked at. From any tile on. */
  lemma {:induction false} FailsAfter(r: Rect, tx: nat, ty: nat, specs: seq<TileSpec>, bad: Data, e: Error)
    requires r.x <= tx <= r.x + r.w && (tx == r.x || tx < r.x + r.w)
    requires var areas := TilesFrom(64, r, tx, ty);
             && |specs| < |areas| && AllWellFormed(specs, areas[..|specs|]) && bad != []
             && var area := areas[|specs|];
                TakeTile(area.x, area.y, area.w, area.h, bad[0], bad[1..]) == Fail(e)
    ensures var areas := TilesFrom(64, r, tx, ty)[..|specs|];
            Decode(r, tx, ty, PrintTiles(specs, areas) + bad) == Decoded(PaintsOf(specs, areas), Some(e))
    decreases |specs|
  {
    hide WellFormed, PaintOf, PrintTile, Decode, TilesFrom, PaintsOf, TakeTile;
    var all := TilesFrom(64, r, tx, ty);
    var areas := all[..|specs|];
    Walk(r, tx, ty);
    if specs == [] {
      PaintsOfNothing(specs, areas);
      assert PrintTiles(specs, areas) + bad == bad;
      BadTile(r, tx, ty, all[0], bad, e);
    } else {
      var last := tx + 64 >= r.x + r.w;
      var tail := PrintTiles(specs[1..], areas[1..]);
      assert all[1..][..|specs| - 1] == areas[1..] && areas[0] == all[0] && all[|specs|] == all[1..][|specs| - 1];
      Associative(PrintTile(specs[0], areas[0]), tail, bad);
      OneTile(r, tx, ty, specs[0], areas[0], tail + bad);
      FailsAfter(r, if last then r.x else tx + 64, if last then ty + 64 else ty, specs[1..], bad, e);
      PaintsOfMore(specs, areas);
    }
  }

  lemma {:induction false} BadTile(r: Rect, tx: nat, ty: nat, area: Rect, bad: Data, e: Error)
    requires area.x == tx && area.y == ty && area.w == Clip(r.x + r.w - tx) && area.h == Clip(r.y + r.h - ty)
    requires bad != [] && TakeTile(area.x, area.y, area.w, area.h, bad[0], bad[1..]) == Fail(e)
    ensures Decode(r, tx, ty, bad) == Decoded([], Some(e))
  {
    hide TakeTile, Clip;
  }

  /** Plain runs that overshoot their tile, in any tile of any rectangle. */
  lemma {:induction false} OverlongRunIsRejected(r: Rect, specs: seq<TileSpec>, runs: seq<(Data, nat)>, more: Data)
    requires |specs| < |Tiles(64, r)| && AllWellFormed(specs, Tiles(64, r)[..|specs|])
    requires GoodRuns(runs)
    requires var area := Tiles(64, r)[|specs|]; Overshoots(area.w * area.h, 0, runs)
    ensures var areas := Tiles(64, r)[..|specs|];
            Decode(r, r.x, r.y, PrintTiles(specs, areas) + (([128] + PrintRuns(runs)) + more)) ==
            Decoded(PaintsOf(specs, areas), Some(TooManyPixels))
  {
    hide AllWellFormed, TilesFrom, Decode, PrintTiles, PaintsOf, PrintRuns, PlainRle, Overshoots;
    var area, bad := Tiles(64, r)[|specs|], ([128] + PrintRuns(runs)) + more;
    Tagged(128, PrintRuns(runs), more);
    OvershootIsRejected(area.w * area.h, 0, runs, more);
    assert TakeTile(area.x, area.y, area.w, area.h, bad[0], bad[1..]) == Fail(TooManyPixels);
    FailsAfter(r, r.x, r.y, specs, bad, TooManyPixels);
  }

  /** Palette runs that overshoot theirs. */
  lemma {:induction false} OverlongPaletteRunIsRejected(r: Rect, specs: seq<TileSpec>, palette: seq<Data>,
                                                        runs: seq<PaletteRun>, more: Data)
    requires |specs| < |Tiles(64, r)| && AllWellFormed(specs, Tiles(64, r)[..|specs|])
    requires Cpixels(palette) && 0 < |palette| < 128 && GoodPaletteRuns(|palette|, runs)
    requires var area := Tiles(64, r)[|specs|]; PaletteOvershoots(area.w * area.h, 0, runs)
    ensures var areas := Tiles(64, r)[..|specs|];
            var body := PrintColours(palette) + PrintPaletteRuns(runs);
            Decode(r, r.x, r.y, PrintTiles(specs, areas) + (([128 + |palette|] + body) + more)) ==
            Decoded(PaintsOf(specs, areas), Some(TooManyPixels))
  {
    hide AllWellFormed, TilesFrom, Decode, PrintTiles, PaintsOf, PaletteRle, PaletteOvershoots, PrintColours;
    hide PrintPaletteRuns, TakePalette;
    var area, body := Tiles(64, r)[|specs|], PrintColours(palette) + PrintPaletteRuns(runs);
    var bad := ([128 + |palette|] + body) + more;
    Tagged(128 + |palette|, body, more);
    Associative(PrintColours(palette), PrintPaletteRuns(runs), more);
    PaletteReadsBack(palette, PrintPaletteRuns(runs) + more);
    PaletteOvershootIsRejected(palette, area.w * area.h, 0, runs, more);
    assert TakeTile(area.x, area.y, area.w, area.h, bad[0], bad[1..]) == Fail(TooManyPixels);
    FailsAfter(r, r.x, r.y, specs, bad, TooManyPixels);
  }

  /** A tile cut short anywhere runs out of data. */
  lemma {:induction false} CutTileRunsOut(t: TileSpec, area: Rect, n: nat)
    requires WellFormed(t, area) && 0 < n < |PrintTile(t, area)|
    ensures TakeTile(area.x, area.y, area.w, area.h, PrintTile(t, area)[0], PrintTile(t, area)[1..n]) == Fail(OutOfData)
  {
    hide WellFormed, TakeTile, PaintOf, PrintTile;
    var all := PrintTile(t, area);
    var head, tail := all[1..n], all[n..];
    TileReadsBack(t, area, []);
    assert all + [] == all && all[1..] == head + tail;
    TileSettles(area.x, area.y, area.w, area.h, all[0], head, tail);
  }

  /** So a rectangle cut short inside a tile paints exactly the tiles before it. */
  lemma {:induction false} CutRectangleRunsOut(r: Rect, specs: seq<TileSpec>, t: TileSpec, n: nat)
    requires |specs| < |Tiles(64, r)| && AllWellFormed(specs, Tiles(64, r)[..|specs|])
    requires WellFormed(t, Tiles(64, r)[|specs|]) && 0 < n < |PrintTile(t, Tiles(64, r)[|specs|])|
    ensures var areas := Tiles(64, r)[..|specs|];
            Decode(r, r.x, r.y, PrintTiles(specs, areas) + PrintTile(t, Tiles(64, r)[|specs|])[..n]) ==
            Decoded(PaintsOf(specs, areas), Some(OutOfData))
  {
    hide AllWellFormed, TilesFrom, Decode, PrintTiles, PaintsOf, WellFormed, PrintTile, TakeTile;
    var area := Tiles(64, r)[|specs|];
    var bad := PrintTile(t, area)[..n];
    CutTileRunsOut(t, area, n);
    assert bad[0] == PrintTile(t, area)[0] && bad[1..] == PrintTile(t, area)[1..n];
    FailsAfter(r, r.x, r.y, specs, bad, OutOfData);
  }

  /** A packed palette of more than 16 colours, in any tile of any rectangle. */
  lemma {:induction false} BigPaletteIsRejected(r: Rect, specs: seq<TileSpec>, size: Byte, more: Data)
    requires |specs| < |Tiles(64, r)| && AllWellFormed(specs, Tiles(64, r)[..|specs|])
    requires 16 < size < 128
    ensures var areas := Tiles(64, r)[..|specs|];
            Decode(r, r.x, r.y, PrintTiles(specs, areas) + ([size] + more)) ==
            Decoded(PaintsOf(specs, areas), Some(PaletteTooBig))
  {
    hide AllWellFormed, TilesFrom, Decode, PrintTiles, PaintsOf;
    Peel([size], more);
    FailsAfter(r, r.x, r.y, specs, [size] + more, PaletteTooBig);
  }

  /** A palette run, behind good ones that leave room for it, whose index names no colour. */
  lemma {:induction false} BadRunIndex(palette: seq<Data>, total: nat, done: nat, runs: seq<PaletteRun>,
                                       b: Byte, more: Data)
    requires |palette| < 128 && GoodPaletteRuns(|palette|, runs)
    requires done + |ExpandPalette(palette, runs)| < total && |palette| <= b % 128
    ensures PaletteRle(Opaques(palette), total, done, PrintPaletteRuns(runs) + ([b] + more)) == Fail(BadIndex)
    decreases |runs|
  {
    hide PrintPaletteRun, Repeat, TakeRunBytes;
    if runs == [] {
      assert PrintPaletteRuns(runs) + ([b] + more) == [b] + more;
    } else {
      var run, rest := runs[0], runs[1..];
      Associative(PrintPaletteRun(run), PrintPaletteRuns(rest), [b] + more);
      OnePaletteRun(palette, total, done, run, PrintPaletteRuns(rest) + ([b] + more));
      BadRunIndex(palette, total, done + Span(run), rest, b, more);
    }
  }

  /** In any tile of any rectangle. */
  lemma {:induction false} BadRunIndexIsRejected(r: Rect, specs: seq<TileSpec>, palette: seq<Data>,
                                                 runs: seq<PaletteRun>, b: Byte, more: Data)
    requires |specs| < |Tiles(64, r)| && AllWellFormed(specs, Tiles(64, r)[..|specs|])
    requires Cpixels(palette) && 0 < |palette| < 128 && GoodPaletteRuns(|palette|, runs) && |palette| <= b % 128
    requires var area := Tiles(64, r)[|specs|]; |ExpandPalette(palette, runs)| < area.w * area.h
    ensures var areas := Tiles(64, r)[..|specs|];
            var body := PrintColours(palette) + (PrintPaletteRuns(runs) + ([b] + more));
            Decode(r, r.x, r.y, PrintTiles(specs, areas) + ([128 + |palette|] + body)) ==
            Decoded(PaintsOf(specs, areas), Some(BadIndex))
  {
    hide AllWellFormed, TilesFrom, Decode, PrintTiles, PaintsOf, PaletteRle, PrintColours, PrintPaletteRuns;
    hide TakePalette, ExpandPalette;
    var area, tail := Tiles(64, r)[|specs|], PrintPaletteRuns(runs) + ([b] + more);
    var bad := [128 + |palette|] + (PrintColours(palette) + tail);
    Peel([128 + |palette|], PrintColours(palette) + tail);
    PaletteReadsBack(palette, tail);
    BadRunIndex(palette, area.w * area.h, 0, runs, b, more);
    assert TakeTile(area.x, area.y, area.w, area.h, bad[0], bad[1..]) == Fail(BadIndex);
    FailsAfter(r, r.x, r.y, specs, bad, BadIndex);
  }

  /** A packed index that names no colour is reported as such, even where the data end right behind
      its byte and more indices are due. */
  lemma {:induction false} BadPackedIndex(palette: seq<Data>, bits: nat, count: nat, s: seq<nat>, i: nat, more: Data)
    requires bits in {1, 2, 4} && Below(Base(bits), s) && Fills(PerByte(bits), |s|)
    requires i < count && i < |s| && s[i] >= |palette|
    ensures TakeLooked(palette, bits, count, Pack(bits, s) + more) == Fail(BadIndex)
    decreases |s|
  {
    hide Pack, Base, Fills, Indices, PackByte, LookUp;
    var per := PerByte(bits);
    PackHead(bits, s);
    var head, rest := s[..per], s[per..];
    Associative([PackByte(bits, head)], Pack(bits, rest), more);
    Peel([PackByte(bits, head)], Pack(bits, rest) + more);
    ByteReadsBack(bits, head);
    var group := if count <= per then head[..count] else head;
    if i < per {
      NoColour(palette, group, i);
    } else {
      BadPackedIndex(palette, bits, count - per, rest, i - per, more);
    }
  }

  lemma {:induction false} NoColour(palette: seq<Data>, indices: seq<nat>, i: nat)
    requires i < |indices| && indices[i] >= |palette|
    ensures LookUp(palette, indices).None?
    decreases |indices|
  {
    if i > 0 {
      NoColour(palette, indices[1..], i - 1);
    }
  }
}
