/**
  Pixel layout (vncdotool/pixelformat.py): which Pillow raw mode reads a pixel format's bytes,
  and where its three CPIXEL bytes sit. Pixels are strings of bits, least significant first.
 */
module PixelFormats {
  import opened Bytes

  datatype PixelFormat = PixelFormat(
    bpp: nat, depth: nat, bigendian: bool, truecolor: bool,
    redmax: nat, greenmax: nat, bluemax: nat, redshift: nat, greenshift: nat, blueshift: nat)
  {
    /** The validation of `PixelFormat.__post_init__`. */
    predicate Valid() {
      && bpp in {8, 16, 24, 32} && 1 <= depth <= bpp
      && (truecolor ==>
            && ValidChannel(redmax, redshift) && ValidChannel(greenmax, greenshift) && ValidChannel(bluemax, blueshift))
    }

    predicate ValidChannel(max: nat, shift: nat) {
      1 <= max <= 0xFFFF && AllOnes(max) && shift + BitLength(max) <= bpp
    }

    function Bypp(): nat { (7 + bpp) / 8 }
  }

  function BitLength(n: nat): nat {
    if n == 0 then 0 else 1 + BitLength(n / 2)
  }

  /** `max & (max + 1) == 0`. */
  predicate AllOnes(n: nat) {
    n == 0 || (n % 2 == 1 && AllOnes(n / 2))
  }

  function Widths(f: PixelFormat): (nat, nat, nat) {
    (BitLength(f.redmax), BitLength(f.greenmax), BitLength(f.bluemax))
  }

  // ----- raw modes -----

  /** The byte on the wire a byte-aligned channel occupies. */
  function Place(f: PixelFormat, nbytes: nat, shift: nat): int {
    if f.bigendian then nbytes - 1 - shift / 8 else shift / 8
  }

  /** The three channels, in the order they are placed. */
  function Channels(f: PixelFormat): seq<(nat, char)> {
    [(f.redshift, 'R'), (f.greenshift, 'G'), (f.blueshift, 'B')]
  }

  /** Place the channels one by one; None stands for UnsupportedPixelFormat. */
  function PlaceAll(f: PixelFormat, nbytes: nat, channels: seq<(nat, char)>, m: map<int, char>)
    : Option<map<int, char>>
  {
    if channels == [] then Some(m)
    else
      var (shift, letter) := channels[0];
      var pos := Place(f, nbytes, shift);
      if shift % 8 != 0 || pos in m then None else PlaceAll(f, nbytes, channels[1..], m[pos := letter])
  }

  function Positions(f: PixelFormat, nbytes: nat): Option<map<int, char>> {
    PlaceAll(f, nbytes, Channels(f), map[])
  }

  /** `_byte_positions`. */
  method BytePositions(f: PixelFormat, nbytes: nat) returns (r: Option<map<int, char>>)
    ensures r == Positions(f, nbytes)
  {
    var channels := Channels(f);
    var positions: map<int, char> := map[];
    for i := 0 to |channels|
      invariant PlaceAll(f, nbytes, channels[i..], positions) == Positions(f, nbytes)
    {
      var (shift, letter) := channels[i];
      assert channels[i..][0] == channels[i] && channels[i..][1..] == channels[i + 1..];
      if shift % 8 != 0 {
        return None;
      }
      var pos := Place(f, nbytes, shift);
      if pos in positions {
        return None;
      }
      positions := positions[pos := letter];
    }
    return Some(positions);
  }

  predicate Aligned(f: PixelFormat) {
    f.redshift % 8 == 0 && f.greenshift % 8 == 0 && f.blueshift % 8 == 0
  }

  /** Channels are placed exactly when each sits on a byte boundary and no two share a byte. */
  lemma {:induction false} PositionsMeaning(f: PixelFormat, nbytes: nat)
    ensures var r, g, b := Place(f, nbytes, f.redshift), Place(f, nbytes, f.greenshift), Place(f, nbytes, f.blueshift);
            && (Positions(f, nbytes).Some? <==> Aligned(f) && r != g && g != b && r != b)
            && (Positions(f, nbytes).Some? ==> Positions(f, nbytes).value == map[r := 'R', g := 'G', b := 'B'])
  {
    hide Place;
    var c := Channels(f);
    var r, g, b := Place(f, nbytes, f.redshift), Place(f, nbytes, f.greenshift), Place(f, nbytes, f.blueshift);
    var c1: seq<(nat, char)> := c[1..];
    var c2: seq<(nat, char)> := c1[1..];
    assert |c1| == 2 && |c2| == 1 && c1[0] == c[1] && c2[0] == c[2];
    var m1: map<int, char> := map[r := 'R'];
    var m2 := m1[g := 'G'];
    var none: map<int, char> := map[];
    assert none[r := 'R'] == m1;
    assert PlaceAll(f, nbytes, c2, m2) ==
           if f.blueshift % 8 != 0 || b in m2 then None else Some(m2[b := 'B']);
    assert PlaceAll(f, nbytes, c1, m1) ==
           if f.greenshift % 8 != 0 || g in m1 then None else PlaceAll(f, nbytes, c2, m2);
  }

  function Mode(positions: map<int, char>, nbytes: nat): string {
    seq(nbytes, i requires 0 <= i < nbytes => if i in positions then positions[i] else 'X')
  }

  /** `raw_mode`; None is UnsupportedPixelFormat. */
  function RawMode(f: PixelFormat): Option<string> {
    if !f.truecolor then None
    else if f.bpp == 32 then Known(f, 4, {"RGBX", "BGRX", "XRGB", "XBGR"})
    else if f.bpp == 24 then Known(f, 3, {"RGB", "BGR"})
    else if f.bpp == 16 then Mode16(f)
    else None
  }

  function Known(f: PixelFormat, nbytes: nat, modes: set<string>): Option<string> {
    if Widths(f) != (8, 8, 8) || Positions(f, nbytes).None? then None
    else
      var mode := Mode(Positions(f, nbytes).value, nbytes);
      if mode in modes then Some(mode) else None
  }

  function Mode16(f: PixelFormat): Option<string> {
    var layout := (Widths(f), (f.redshift, f.greenshift, f.blueshift));
    if f.bigendian then None
    else if layout == ((5, 6, 5), (11, 5, 0)) then Some("BGR;16")
    else if layout == ((5, 6, 5), (0, 5, 11)) then Some("RGB;16")
    else if layout == ((5, 5, 5), (10, 5, 0)) then Some("BGR;15")
    else if layout == ((5, 5, 5), (0, 5, 10)) then Some("RGB;15")
    else if layout == ((4, 4, 4), (0, 4, 8)) then Some("RGB;4B")
    else None
  }

  // ----- what a pixel of a format looks like on the wire -----

  type Bits = seq<bool>

  const ZERO_BYTE: Bits := [false, false, false, false, false, false, false, false]

  /** Bit `i` of a channel value shifted into place. */
  predicate ChannelBit(shift: nat, value: Bits, i: nat) {
    shift <= i < shift + |value| && value[i - shift]
  }

  /** Red, green and blue packed by their shifts. */
  function Packed(f: PixelFormat, nbytes: nat, r: Bits, g: Bits, b: Bits): (p: Bits)
    ensures |p| == 8 * nbytes
  {
    seq(8 * nbytes, i requires 0 <= i < 8 * nbytes =>
          ChannelBit(f.redshift, r, i) || ChannelBit(f.greenshift, g, i) || ChannelBit(f.blueshift, b, i))
  }

  /** The bytes in the order they travel. */
  function Wire(f: PixelFormat, nbytes: nat, pixel: Bits): (w: seq<Bits>)
    requires |pixel| == 8 * nbytes
    ensures |w| == nbytes
  {
    seq(nbytes, p requires 0 <= p < nbytes =>
          var j := if f.bigendian then nbytes - 1 - p else p;
          pixel[8 * j..8 * j + 8])
  }

  /** Reading a pixel through a raw mode: each letter names the channel its byte is. */
  predicate ReadsBack(mode: string, wire: seq<Bits>, r: Bits, g: Bits, b: Bits) {
    && |mode| == |wire|
    && forall p :: 0 <= p < |mode| ==>
         && (mode[p] == 'R' ==> wire[p] == r) && (mode[p] == 'G' ==> wire[p] == g) && (mode[p] == 'B' ==> wire[p] == b)
         && (mode[p] == 'X' ==> wire[p] == ZERO_BYTE)
  }

  /** A byte-aligned channel fills its own byte of the pixel and no other. */
  lemma {:induction false} AlignedChannel(shift: nat, value: Bits, j: nat, k: nat)
    requires |value| == 8 && shift % 8 == 0 && k < 8
    ensures ChannelBit(shift, value, 8 * j + k) <==> shift / 8 == j && value[k]
  {
    if shift / 8 == j {
      assert shift == 8 * j;
    }
  }

  /** One byte of the wire is the channel placed there, or zero if none is. */
  lemma {:induction false} WireByte(f: PixelFormat, nbytes: nat, r: Bits, g: Bits, b: Bits, p: nat)
    requires |r| == 8 && |g| == 8 && |b| == 8 && p < nbytes && Positions(f, nbytes).Some?
    ensures Wire(f, nbytes, Packed(f, nbytes, r, g, b))[p] ==
            if p == Place(f, nbytes, f.redshift) then r
            else if p == Place(f, nbytes, f.greenshift) then g
            else if p == Place(f, nbytes, f.blueshift) then b
            else ZERO_BYTE
  {
    PositionsMeaning(f, nbytes);
    var j := if f.bigendian then nbytes - 1 - p else p;
    var byte := Wire(f, nbytes, Packed(f, nbytes, r, g, b))[p];
    forall k | 0 <= k < 8
      ensures byte[k] <==>
              || (f.redshift / 8 == j && r[k])
              || (f.greenshift / 8 == j && g[k])
              || (f.blueshift / 8 == j && b[k])
    {
      AlignedChannel(f.redshift, r, j, k);
      AlignedChannel(f.greenshift, g, j, k);
      AlignedChannel(f.blueshift, b, j, k);
    }
  }

  /** A resolved 24 or 32 bpp raw mode reads back exactly the channels packed by shift and
      endianness: all three are there, each in one byte, and any fourth byte is padding. */
  lemma {:induction false} RawModeReadsBack(f: PixelFormat, r: Bits, g: Bits, b: Bits)
    requires f.bpp in {24, 32} && RawMode(f).Some? && |r| == 8 && |g| == 8 && |b| == 8
    ensures var nbytes, mode := f.Bypp(), RawMode(f).value;
            && ReadsBack(mode, Wire(f, nbytes, Packed(f, nbytes, r, g, b)), r, g, b)
            && 'R' in mode && 'G' in mode && 'B' in mode
  {
    hide Packed, Wire, BitLength, PlaceAll;
    PositionsMeaning(f, f.Bypp());
    var nbytes, mode := f.Bypp(), RawMode(f).value;
    assert nbytes == f.bpp / 8;
    forall p | 0 <= p < nbytes
      ensures var w := Wire(f, nbytes, Packed(f, nbytes, r, g, b))[p];
              && (mode[p] == 'R' ==> w == r) && (mode[p] == 'G' ==> w == g) && (mode[p] == 'B' ==> w == b)
              && (mode[p] == 'X' ==> w == ZERO_BYTE)
    {
      WireByte(f, nbytes, r, g, b, p);
    }
    assert mode[0] in "RGBX" && ('R' in mode && 'G' in mode && 'B' in mode) by { ModesNameAll(mode); }
  }

  lemma {:induction false} ModesNameAll(mode: string)
    requires mode in {"RGBX", "BGRX", "XRGB", "XBGR", "RGB", "BGR"}
    ensures mode[0] in "RGBX" && 'R' in mode && 'G' in mode && 'B' in mode
  {
    assert "RGBX"[0] == 'R' && "RGBX"[1] == 'G' && "RGBX"[2] == 'B' && "RGBX"[3] == 'X';
    assert "BGRX"[0] == 'B' && "BGRX"[1] == 'G' && "BGRX"[2] == 'R';
    assert "XRGB"[0] == 'X' && "XRGB"[1] == 'R' && "XRGB"[2] == 'G' && "XRGB"[3] == 'B';
    assert "XBGR"[0] == 'X' && "XBGR"[1] == 'B' && "XBGR"[2] == 'G' && "XBGR"[3] == 'R';
    assert "RGB"[0] == 'R' && "RGB"[1] == 'G' && "RGB"[2] == 'B';
    assert "BGR"[0] == 'B' && "BGR"[1] == 'G' && "BGR"[2] == 'R';
  }

  /** Which 32 bpp layouts resolve: 8-bit byte-aligned channels in one of four orders, green in the middle. */
  lemma {:induction false} RawModeResolves(f: PixelFormat)
    requires f.truecolor && f.bpp == 32
    ensures var places := (Place(f, 4, f.redshift), Place(f, 4, f.greenshift), Place(f, 4, f.blueshift));
            RawMode(f).Some? <==>
            && Widths(f) == (8, 8, 8) && Aligned(f)
            && (places == (0, 1, 2) || places == (2, 1, 0) || places == (1, 2, 3) || places == (3, 2, 1))
  {
    hide BitLength, PlaceAll, Place;
    PositionsMeaning(f, 4);
    var r, g, b := Place(f, 4, f.redshift), Place(f, 4, f.greenshift), Place(f, 4, f.blueshift);
    if Positions(f, 4).Some? {
      var mode := Mode(Positions(f, 4).value, 4);
      assert forall i :: 0 <= i < 4 ==>
               mode[i] == if i == r then 'R' else if i == g then 'G' else if i == b then 'B' else 'X';
      Spelled(mode, "RGBX");
      Spelled(mode, "BGRX");
      Spelled(mode, "XRGB");
      Spelled(mode, "XBGR");
    }
  }

  lemma {:induction false} Spelled(mode: string, word: string)
    requires |mode| == 4 && |word| == 4
    ensures mode == word <==> mode[0] == word[0] && mode[1] == word[1] && mode[2] == word[2] && mode[3] == word[3]
  {
  }

  /** Which 24 bpp layouts resolve: red and blue may change places around green. */
  lemma {:induction false} RawMode24Resolves(f: PixelFormat)
    requires f.truecolor && f.bpp == 24
    ensures var places := (Place(f, 3, f.redshift), Place(f, 3, f.greenshift), Place(f, 3, f.blueshift));
            RawMode(f).Some? <==>
            Widths(f) == (8, 8, 8) && Aligned(f) && (places == (0, 1, 2) || places == (2, 1, 0))
  {
    hide BitLength, PlaceAll, Place;
    PositionsMeaning(f, 3);
    var r, g, b := Place(f, 3, f.redshift), Place(f, 3, f.greenshift), Place(f, 3, f.blueshift);
    if Positions(f, 3).Some? {
      var mode := Mode(Positions(f, 3).value, 3);
      assert forall i :: 0 <= i < 3 ==>
               mode[i] == if i == r then 'R' else if i == g then 'G' else if i == b then 'B' else 'X';
      assert mode == "RGB" <==> mode[0] == 'R' && mode[1] == 'G' && mode[2] == 'B';
      assert mode == "BGR" <==> mode[0] == 'B' && mode[1] == 'G' && mode[2] == 'R';
    }
  }

  /** Colour-mapped formats and other sizes never resolve. */
  lemma {:induction false} RawModeIsTrueColour(f: PixelFormat)
    ensures RawMode(f).Some? ==> f.truecolor && f.bpp in {16, 24, 32}
  {
    hide Known, Mode16;
  }

  /** What Pillow reads of a little-endian 16-bit word, from its lowest bit up. */
  function Fields16(mode: string): seq<(char, nat)> {
    if mode == "BGR;16" then [('B', 5), ('G', 6), ('R', 5)]
    else if mode == "RGB;16" then [('R', 5), ('G', 6), ('B', 5)]
    else if mode == "BGR;15" then [('B', 5), ('G', 5), ('R', 5)]
    else if mode == "RGB;15" then [('R', 5), ('G', 5), ('B', 5)]
    else if mode == "RGB;4B" then [('R', 4), ('G', 4), ('B', 4)]
    else []
  }

  function Channel(letter: char, r: Bits, g: Bits, b: Bits): Bits {
    if letter == 'R' then r else if letter == 'G' then g else b
  }

  /** Which 16 bpp layouts resolve: little-endian, channels side by side from bit 0 with green in the
      middle, in three sets of widths; four-bit channels only with red lowest. */
  lemma {:induction false} RawMode16Resolves(f: PixelFormat)
    requires f.truecolor && f.bpp == 16
    ensures var (rw, gw, bw) := Widths(f);
            RawMode(f).Some? <==>
            && !f.bigendian && (rw, gw, bw) in {(5, 6, 5), (5, 5, 5), (4, 4, 4)}
            && ((f.redshift == 0 && f.greenshift == rw && f.blueshift == rw + gw) ||
                (f.blueshift == 0 && f.greenshift == bw && f.redshift == bw + gw && rw != 4))
  {
    hide BitLength;
  }

  /** A resolved 16 bpp mode reads back exactly the channels packed by shift. */
  lemma {:induction false} RawMode16ReadsBack(f: PixelFormat, r: Bits, g: Bits, b: Bits)
    requires f.bpp == 16 && RawMode(f).Some? && (|r|, |g|, |b|) == Widths(f)
    ensures var wire, fields := Wire(f, 2, Packed(f, 2, r, g, b)), Fields16(RawMode(f).value);
            var word := wire[0] + wire[1];
            && |fields| == 3 && {fields[0].0, fields[1].0, fields[2].0} == {'R', 'G', 'B'}
            && var x, y, z := fields[0].0, fields[1].0, fields[2].0;
               var w0, w1, w2 := fields[0].1, fields[1].1, fields[2].1;
               && w0 + w1 + w2 <= |word|
               && word[..w0] == Channel(x, r, g, b)
               && word[w0..w0 + w1] == Channel(y, r, g, b)
               && word[w0 + w1..w0 + w1 + w2] == Channel(z, r, g, b)
  {
    hide BitLength;
    var p := Packed(f, 2, r, g, b);
    var wire := Wire(f, 2, p);
    assert wire[0] + wire[1] == p;
    var fields := Fields16(RawMode(f).value);
    var x, y, z := fields[0].0, fields[1].0, fields[2].0;
    var w0, w1, w2 := fields[0].1, fields[1].1, fields[2].1;
    FieldReadsBack(f, r, g, b, x, 0, w0);
    FieldReadsBack(f, r, g, b, y, w0, w1);
    FieldReadsBack(f, r, g, b, z, w0 + w1, w2);
  }

  function ShiftOf(f: PixelFormat, letter: char): nat {
    if letter == 'R' then f.redshift else if letter == 'G' then f.greenshift else f.blueshift
  }

  /** A channel of `width` bits at `shift` has no bit from `at` to `end`. */
  predicate Clear(shift: nat, width: nat, at: nat, end: nat) {
    shift + width <= at || end <= shift
  }

  lemma {:induction false} FieldReadsBack(f: PixelFormat, r: Bits, g: Bits, b: Bits, letter: char, at: nat, width: nat)
    requires letter in {'R', 'G', 'B'} && at == ShiftOf(f, letter) && width == |Channel(letter, r, g, b)|
    requires at + width <= 16
    requires letter != 'R' ==> Clear(f.redshift, |r|, at, at + width)
    requires letter != 'G' ==> Clear(f.greenshift, |g|, at, at + width)
    requires letter != 'B' ==> Clear(f.blueshift, |b|, at, at + width)
    ensures Packed(f, 2, r, g, b)[at..at + width] == Channel(letter, r, g, b)
  {
    var p, c := Packed(f, 2, r, g, b), Channel(letter, r, g, b);
    forall i | 0 <= i < width ensures p[at..at + width][i] == c[i] {
      assert p[at..at + width][i] == p[at + i];
    }
  }

  // ----- CPIXELs -----

  datatype Placement = Low | High | Neither

  /** `_cpixel_placement`. */
  function CpixelPlacement(f: PixelFormat): Placement {
    var (rw, gw, bw) := Widths(f);
    if f.redshift + rw <= 24 && f.greenshift + gw <= 24 && f.blueshift + bw <= 24 then Low
    else if f.redshift >= 8 && f.greenshift >= 8 && f.blueshift >= 8 then High
    else Neither
  }

  function CpixelBytes(f: PixelFormat): nat {
    if f.truecolor && f.bpp == 32 && f.depth <= 24 && CpixelPlacement(f) != Neither then 3 else f.Bypp()
  }

  function CpixelOffset(f: PixelFormat): nat {
    if CpixelBytes(f) != 3 || (CpixelPlacement(f) == Low) != f.bigendian then 0 else f.Bypp() - 3
  }

  /** The three CPIXEL bytes put back into a pixel of `nbytes`, the rest zero. */
  function ZeroExtend(nbytes: nat, offset: nat, window: seq<Bits>): seq<Bits> {
    seq(nbytes, p requires 0 <= p < nbytes =>
          if offset <= p < offset + |window| then window[p - offset] else ZERO_BYTE)
  }

  /** Eight bits no channel reaches make a zero byte. */
  lemma {:induction false} ClearByte(f: PixelFormat, nbytes: nat, r: Bits, g: Bits, b: Bits, j: nat)
    requires j < nbytes
    requires forall i :: 8 * j <= i < 8 * j + 8 ==>
               !ChannelBit(f.redshift, r, i) && !ChannelBit(f.greenshift, g, i) && !ChannelBit(f.blueshift, b, i)
    ensures Packed(f, nbytes, r, g, b)[8 * j..8 * j + 8] == ZERO_BYTE
  {
    hide ChannelBit;
  }

  /** Whenever a CPIXEL is three bytes, the window at its offset carries every colour bit of every
      colour: zero-extending it restores the pixel. */
  lemma {:induction false} CpixelLosesNothing(f: PixelFormat, r: Bits, g: Bits, b: Bits)
    requires f.Valid() && CpixelBytes(f) == 3
    requires (|r|, |g|, |b|) == Widths(f)
    ensures var wire, at := Wire(f, f.Bypp(), Packed(f, f.Bypp(), r, g, b)), CpixelOffset(f);
            at + 3 <= |wire| && ZeroExtend(|wire|, at, wire[at..at + 3]) == wire
  {
    hide BitLength, AllOnes, Packed;
    var wire, at := Wire(f, f.Bypp(), Packed(f, f.Bypp(), r, g, b)), CpixelOffset(f);
    if f.bpp == 32 {
      // Value bits 24 and up are clear, or value bits below 8 are.
      ClearByte(f, 4, r, g, b, if CpixelPlacement(f) == Low then 3 else 0);
      assert wire[if at == 0 then 3 else 0] == ZERO_BYTE;
    }
  }

  /** The size of a CPIXEL of any format: three bytes for a 32 bpp true-colour one of depth 24 or less
      that does not have colour bits at both ends, and otherwise all the bytes of a pixel. */
  lemma {:induction false} CpixelSizeExactly(f: PixelFormat)
    requires f.Valid()
    ensures f.bpp == 32 ==>
              (CpixelBytes(f) == 3 <==>
               && f.truecolor && f.depth <= 24
               && !((exists i :: 0 <= i < 8 && Colours(f, i)) && (exists i :: 24 <= i < 32 && Colours(f, i))))
    ensures f.bpp == 32 ==> CpixelBytes(f) in {3, 4}
    ensures f.bpp != 32 ==> CpixelBytes(f) == f.bpp / 8
  {
    hide BitLength, AllOnes, Colours;
    if f.truecolor && f.bpp == 32 && f.depth <= 24 {
      CpixelIsThreeWhenPossible(f);
    }
  }

  /** Where three bytes fit at either end of the pixel, the low ones are used. */
  lemma {:induction false} CpixelPrefersLow(f: PixelFormat)
    requires f.Valid() && CpixelBytes(f) == 3 && f.bpp == 32
    ensures (CpixelOffset(f) == if f.bigendian then 1 else 0) <==> forall i :: 24 <= i < 32 ==> !Colours(f, i)
  {
    var (rw, gw, bw) := Widths(f);
    assert 0 < rw && 0 < gw && 0 < bw;
    hide BitLength, AllOnes;
    assert f.redshift + rw > 24 ==> Colours(f, f.redshift + rw - 1);
    assert f.greenshift + gw > 24 ==> Colours(f, f.greenshift + gw - 1);
    assert f.blueshift + bw > 24 ==> Colours(f, f.blueshift + bw - 1);
  }

  /** A colour bit of the format at value bit `i`. */
  predicate Colours(f: PixelFormat, i: nat) {
    var (rw, gw, bw) := Widths(f);
    f.redshift <= i < f.redshift + rw || f.greenshift <= i < f.greenshift + gw || f.blueshift <= i < f.blueshift + bw
  }

  /** Three bytes are used whenever they can be: a 24-bit-deep 32 bpp format keeps all four only if it
      has colour bits both in its lowest and in its highest byte. */
  lemma {:induction false} CpixelIsThreeWhenPossible(f: PixelFormat)
    requires f.Valid() && f.truecolor && f.bpp == 32 && f.depth <= 24
    ensures CpixelBytes(f) == 4 <==>
            (exists i :: 0 <= i < 8 && Colours(f, i)) && (exists i :: 24 <= i < 32 && Colours(f, i))
  {
    var (rw, gw, bw) := Widths(f);
    assert 0 < rw && 0 < gw && 0 < bw;
    hide BitLength, AllOnes;
    assert f.redshift < 8 ==> Colours(f, f.redshift);
    assert f.greenshift < 8 ==> Colours(f, f.greenshift);
    assert f.blueshift < 8 ==> Colours(f, f.blueshift);
    assert f.redshift + rw > 24 ==> Colours(f, f.redshift + rw - 1);
    assert f.greenshift + gw > 24 ==> Colours(f, f.greenshift + gw - 1);
    assert f.blueshift + bw > 24 ==> Colours(f, f.blueshift + bw - 1);
  }
}
