/**
  The ZRLE tile decoder of `_handleDecodeZRLEdata` and the `_zrle_next_*` helpers
  (vncdotool/rfb.py), on the bytes zlib has already decompressed.
 */
module Zrle {
  import opened Bytes
  import opened Tiling

  /** StopIteration, the two ValueErrors, and IndexError. */
  datatype Error = OutOfData | TooManyPixels | PaletteTooBig | BadIndex

  /** What was read and what is left to read. */
  datatype Result<T> = Ok(value: T, rest: Data) | Fail(error: Error)

  /** A tile past the bottom of the rectangle would have no height, so sizes are integers here. */
  datatype Paint =
    | Pixels(x: nat, y: nat, w: int, h: int, data: Data)
    | Solid(x: nat, y: nat, w: int, h: int, color: Data)

  // ----- reading pixels -----

  /** `cpixel`: three bytes, and an opaque alpha. */
  function TakePixel(data: Data): Result<Data> {
    if |data| < 3 then Fail(OutOfData) else Ok(data[..3] + [0xFF], data[3..])
  }

  function Repeat(pixel: Data, n: nat): Data {
    if n == 0 then [] else pixel + Repeat(pixel, n - 1)
  }

  function TakePixels(n: int, data: Data): (r: Result<Data>)
    ensures r.Ok? ==> |r.rest| <= |data|
    decreases n
  {
    if n <= 0 then Ok([], data)
    else
      match TakePixel(data)
      case Fail(e) => Fail(e)
      case Ok(pixel, rest) =>
        match TakePixels(n - 1, rest)
        case Fail(e) => Fail(e)
        case Ok(more, rest) => Ok(pixel + more, rest)
  }

  function TakePalette(n: nat, data: Data): (r: Result<seq<Data>>)
    ensures r.Ok? ==> |r.rest| <= |data|
  {
    if n == 0 then Ok([], data)
    else
      match TakePixel(data)
      case Fail(e) => Fail(e)
      case Ok(pixel, rest) =>
        match TakePalette(n - 1, rest)
        case Fail(e) => Fail(e)
        case Ok(more, rest) => Ok([pixel] + more, rest)
  }

  /** The bytes of a run length: 255s, then a smaller byte. The run is one longer than their sum. */
  function TakeRunBytes(data: Data): (r: Result<nat>)
    ensures r.Ok? ==> |r.rest| < |data|
  {
    if data == [] then Fail(OutOfData)
    else if data[0] == 255 then
      match TakeRunBytes(data[1..])
      case Fail(e) => Fail(e)
      case Ok(n, rest) => Ok(255 + n, rest)
    else Ok(data[0], data[1..])
  }

  function PlainRle(total: int, done: nat, data: Data): (r: Result<Data>)
    ensures r.Ok? ==> |r.rest| <= |data|
    decreases |data|
  {
    if done > total then Fail(TooManyPixels)
    else if done == total then Ok([], data)
    else
      match TakePixel(data)
      case Fail(e) => Fail(e)
      case Ok(pixel, rest) =>
        match TakeRunBytes(rest)
        case Fail(e) => Fail(e)
        case Ok(n, rest) =>
          match PlainRle(total, done + n + 1, rest)
          case Fail(e) => Fail(e)
          case Ok(more, rest) => Ok(Repeat(pixel, n + 1) + more, rest)
  }

  function PaletteRle(palette: seq<Data>, total: int, done: nat, data: Data): (r: Result<Data>)
    ensures r.Ok? ==> |r.rest| <= |data|
    decreases |data|
  {
    if done > total then Fail(TooManyPixels)
    else if done == total then Ok([], data)
    else if data == [] then Fail(OutOfData)
    else if data[0] % 128 >= |palette| then Fail(BadIndex)
    else
      var pixel := palette[data[0] % 128];
      if data[0] < 128 then
        match PaletteRle(palette, total, done + 1, data[1..])
        case Fail(e) => Fail(e)
        case Ok(more, rest) => Ok(pixel + more, rest)
      else
        match TakeRunBytes(data[1..])
        case Fail(e) => Fail(e)
        case Ok(n, rest) =>
          match PaletteRle(palette, total, done + n + 1, rest)
          case Fail(e) => Fail(e)
          case Ok(more, rest) => Ok(Repeat(pixel, n + 1) + more, rest)
  }

  // ----- packed palettes -----

  /** Bits per index for a packed palette of `size` colours. */
  function IndexBits(size: nat): nat {
    if size == 2 then 1 else if size <= 4 then 2 else 4
  }

  /** How many indices share a byte. */
  function PerByte(bits: nat): (per: nat)
    ensures 0 < per
  {
    if bits == 1 then 8 else if bits == 2 then 4 else 2
  }

  /** The indices in one byte, most significant first. */
  function Indices(bits: nat, b: Byte): (r: seq<nat>)
    requires bits in {1, 2, 4}
    ensures |r| == PerByte(bits)
  {
    if bits == 1 then
      [b / 128, b / 64 % 2, b / 32 % 2, b / 16 % 2, b / 8 % 2, b / 4 % 2, b / 2 % 2, b % 2]
    else if bits == 2 then [b / 64, b / 16 % 4, b / 4 % 4, b % 4]
    else [b / 16, b % 16]
  }

  /** `_zrle_next_bit/_dibit/_nibble`: a continuous stream of `count` indices. Their counters are
      compared with `==`, so a count that is not positive never stops them. */
  function TakeIndices(bits: nat, count: int, data: Data): (r: Result<seq<nat>>)
    requires bits in {1, 2, 4}
    ensures r.Ok? ==> |r.rest| <= |data|
    decreases |data|
  {
    if data == [] then Fail(OutOfData)
    else
      var group := Indices(bits, data[0]);
      if 0 < count <= |group| then Ok(group[..count], data[1..])
      else
        match TakeIndices(bits, count - |group|, data[1..])
        case Fail(e) => Fail(e)
        case Ok(more, rest) => Ok(group + more, rest)
  }

  function LookUp(palette: seq<Data>, indices: seq<nat>): Option<Data> {
    if indices == [] then Some([])
    else if indices[0] >= |palette| then None
    else
      match LookUp(palette, indices[1..])
      case None => None
      case Some(more) => Some(palette[indices[0]] + more)
  }

  /** The loop over `next_index`: each index is looked up before the next byte is asked for, so a bad
      index is reported even when the data end soon after it. */
  function TakeLooked(palette: seq<Data>, bits: nat, count: int, data: Data): (r: Result<Data>)
    requires bits in {1, 2, 4}
    ensures r.Ok? ==> |r.rest| <= |data|
    decreases |data|
  {
    if data == [] then Fail(OutOfData)
    else
      var group := Indices(bits, data[0]);
      var last := 0 < count <= |group|;
      match LookUp(palette, if last then group[..count] else group)
      case None => Fail(BadIndex)
      case Some(pixels) =>
        if last then Ok(pixels, data[1..])
        else Before(pixels, TakeLooked(palette, bits, count - |group|, data[1..]))
  }

  function TakePacked(size: nat, total: int, data: Data): (r: Result<Data>)
    requires 2 <= size <= 16
    ensures r.Ok? ==> |r.rest| <= |data|
  {
    match TakePalette(size, data)
    case Fail(e) => Fail(e)
    case Ok(palette, rest) => TakeLooked(palette, IndexBits(size), total, rest)
  }

  lemma {:induction false} LookUpConcat(palette: seq<Data>, a: seq<nat>, b: seq<nat>)
    ensures LookUp(palette, a + b) ==
            if LookUp(palette, a).None? || LookUp(palette, b).None? then None
            else Some(LookUp(palette, a).value + LookUp(palette, b).value)
    decreases |a|
  {
    if a == [] {
      assert a + b == b;
      if LookUp(palette, b).Some? {
        assert [] + LookUp(palette, b).value == LookUp(palette, b).value;
      }
    } else {
      assert (a + b)[1..] == a[1..] + b;
      LookUpConcat(palette, a[1..], b);
      if a[0] < |palette| && LookUp(palette, a).Some? && LookUp(palette, b).Some? {
        Associative(palette[a[0]], LookUp(palette, a[1..]).value, LookUp(palette, b).value);
      }
    }
  }

  /** Looking up as one goes is looking up all at once, where there are enough indices; where there
      are not, it fails either way. */
  lemma {:induction false} LookedIsLookUp(palette: seq<Data>, bits: nat, count: int, data: Data)
    requires bits in {1, 2, 4}
    ensures match TakeIndices(bits, count, data)
            case Fail(_) => TakeLooked(palette, bits, count, data).Fail?
            case Ok(indices, rest) =>
              TakeLooked(palette, bits, count, data) ==
              (match LookUp(palette, indices) case None => Fail(BadIndex) case Some(pixels) => Ok(pixels, rest))
    decreases |data|
  {
    hide Indices, LookUp;
    if data != [] {
      var group := Indices(bits, data[0]);
      if !(0 < count <= |group|) {
        LookedIsLookUp(palette, bits, count - |group|, data[1..]);
        var more := TakeIndices(bits, count - |group|, data[1..]);
        if more.Ok? {
          LookUpConcat(palette, group, more.value);
        }
      }
    }
  }

  // ----- tiles -----

  /** The pixels of a tile that is not a single colour. */
  function TakeTilePixels(sub: Byte, total: int, data: Data): (r: Result<Data>)
    requires sub != 1
    ensures r.Ok? ==> |r.rest| <= |data|
  {
    if sub >= 128 then
      if sub == 128 then PlainRle(total, 0, data)
      else
        match TakePalette(sub - 128, data)
        case Fail(e) => Fail(e)
        case Ok(palette, rest) => PaletteRle(palette, total, 0, rest)
    else if sub == 0 then TakePixels(total, data)
    else if sub > 16 then Fail(PaletteTooBig)
    else TakePacked(sub, total, data)
  }

  function TakeTile(x: nat, y: nat, w: int, h: int, sub: Byte, data: Data): (r: Result<Paint>)
    ensures r.Ok? ==> |r.rest| <= |data|
  {
    if sub == 1 then
      match TakePixel(data)
      case Fail(e) => Fail(e)
      case Ok(color, rest) => Ok(Solid(x, y, w, h, color), rest)
    else
      match TakeTilePixels(sub, w * h, data)
      case Fail(e) => Fail(e)
      case Ok(pixels, rest) => Ok(Pixels(x, y, w, h, pixels), rest)
  }

  /** 64 clipped by what is left. */
  function Clip(left: int): int {
    if left < 64 then left else 64
  }

  /** The callbacks made, and the exception that ended the rectangle, if one did. */
  datatype Decoded = Decoded(paints: seq<Paint>, error: Option<Error>)

  /** `_handleDecodeZRLEdata`, from tile (tx, ty) on; every subencoding byte starts a tile. */
  function Decode(r: Rect, tx: nat, ty: nat, data: Data): Decoded
    decreases |data|
  {
    if data == [] then Decoded([], None)
    else
      match TakeTile(tx, ty, Clip(r.x + r.w - tx), Clip(r.y + r.h - ty), data[0], data[1..])
      case Fail(e) => Decoded([], Some(e))
      case Ok(paint, rest) =>
        var d := if tx + 64 >= r.x + r.w then Decode(r, r.x, ty + 64, rest) else Decode(r, tx + 64, ty, rest);
        d.(paints := [paint] + d.paints)
  }

  // ----- more data -----

  /** What was read is read again with more data behind it; what failed fails again, unless it was for
      want of data. */
  predicate Settles<T(==)>(a: Result<T>, b: Result<T>, more: Data) {
    if a.Ok? then b == Ok(a.value, a.rest + more) else a.error == OutOfData || b == a
  }

  lemma {:induction false} PixelSettles(data: Data, more: Data)
    ensures Settles(TakePixel(data), TakePixel(data + more), more)
  {
    if 3 <= |data| {
      assert (data + more)[..3] == data[..3] && (data + more)[3..] == data[3..] + more;
    }
  }

  lemma {:induction false} PixelsSettle(n: int, data: Data, more: Data)
    ensures Settles(TakePixels(n, data), TakePixels(n, data + more), more)
    decreases n
  {
    hide TakePixel;
    PixelSettles(data, more);
    if 0 < n && TakePixel(data).Ok? {
      PixelsSettle(n - 1, TakePixel(data).rest, more);
    }
  }

  lemma {:induction false} PaletteSettles(n: nat, data: Data, more: Data)
    ensures Settles(TakePalette(n, data), TakePalette(n, data + more), more)
    decreases n
  {
    hide TakePixel;
    PixelSettles(data, more);
    if 0 < n && TakePixel(data).Ok? {
      PaletteSettles(n - 1, TakePixel(data).rest, more);
    }
  }

  lemma {:induction false} RunBytesSettle(data: Data, more: Data)
    ensures Settles(TakeRunBytes(data), TakeRunBytes(data + more), more)
    decreases |data|
  {
    if data != [] {
      assert (data + more)[1..] == data[1..] + more;
      RunBytesSettle(data[1..], more);
    }
  }

  lemma {:induction false} PlainRleSettles(total: int, done: nat, data: Data, more: Data)
    ensures Settles(PlainRle(total, done, data), PlainRle(total, done, data + more), more)
    decreases |data|
  {
    hide TakePixel, TakeRunBytes, Repeat;
    PixelSettles(data, more);
    var pixel := TakePixel(data);
    if done < total && pixel.Ok? {
      RunBytesSettle(pixel.rest, more);
      var run := TakeRunBytes(pixel.rest);
      if run.Ok? {
        PixelShrinks(data);
        PlainRleSettles(total, done + run.value + 1, run.rest, more);
      }
    }
  }

  lemma {:induction false} PixelShrinks(data: Data)
    ensures TakePixel(data).Ok? ==> |TakePixel(data).rest| < |data|
  {
  }

  lemma {:induction false} PaletteRleSettles(palette: seq<Data>, total: int, done: nat, data: Data, more: Data)
    ensures Settles(PaletteRle(palette, total, done, data), PaletteRle(palette, total, done, data + more), more)
    decreases |data|
  {
    hide TakeRunBytes, Repeat;
    if done < total && data != [] && data[0] % 128 < |palette| {
      assert (data + more)[0] == data[0] && (data + more)[1..] == data[1..] + more;
      if data[0] < 128 {
        PaletteRleSettles(palette, total, done + 1, data[1..], more);
      } else {
        RunBytesSettle(data[1..], more);
        var run := TakeRunBytes(data[1..]);
        if run.Ok? {
          PaletteRleSettles(palette, total, done + run.value + 1, run.rest, more);
        }
      }
    }
  }

  lemma {:induction false} LookedSettles(palette: seq<Data>, bits: nat, count: int, data: Data, more: Data)
    requires bits in {1, 2, 4}
    ensures Settles(TakeLooked(palette, bits, count, data), TakeLooked(palette, bits, count, data + more), more)
    decreases |data|
  {
    hide Indices, LookUp;
    if data != [] {
      assert (data + more)[0] == data[0] && (data + more)[1..] == data[1..] + more;
      LookedSettles(palette, bits, count - |Indices(bits, data[0])|, data[1..], more);
    }
  }

  /** A tile once read, and an error once found, stay so whatever more arrives. */
  lemma {:induction false} TileSettles(x: nat, y: nat, w: int, h: int, sub: Byte, data: Data, more: Data)
    ensures Settles(TakeTile(x, y, w, h, sub, data), TakeTile(x, y, w, h, sub, data + more), more)
  {
    hide TakePixel, TakePixels, TakePalette, PlainRle, PaletteRle, TakeLooked;
    if sub == 1 {
      PixelSettles(data, more);
    } else if sub == 128 {
      PlainRleSettles(w * h, 0, data, more);
    } else if sub > 128 {
      PaletteSettles(sub - 128, data, more);
      var palette := TakePalette(sub - 128, data);
      if palette.Ok? {
        PaletteRleSettles(palette.value, w * h, 0, palette.rest, more);
      }
    } else if sub == 0 {
      PixelsSettle(w * h, data, more);
    } else if sub <= 16 {
      PaletteSettles(sub, data, more);
      var palette := TakePalette(sub, data);
      if palette.Ok? {
        LookedSettles(palette.value, IndexBits(sub), w * h, palette.rest, more);
      }
    }
  }

  // ----- the source's loops -----

  /** `out` was read before the rest. */
  function Before(out: Data, r: Result<Data>): Result<Data> {
    match r
    case Fail(e) => Fail(e)
    case Ok(more, rest) => Ok(out + more, rest)
  }

  lemma {:induction false} BeforeNothing(r: Result<Data>)
    ensures Before([], r) == r
  {
    if r.Ok? {
      assert [] + r.value == r.value;
    }
  }

  lemma {:induction false} BeforeTwice(a: Data, b: Data, r: Result<Data>)
    ensures Before(a + b, r) == Before(a, Before(b, r))
  {
    if r.Ok? {
      Associative(a, b, r.value);
    }
  }

  /** The `while` loop of `do_rle`. */
  method ReadRunBytes(data: Data) returns (r: Result<nat>)
    ensures r == TakeRunBytes(data)
  {
    var it, length := data, 0;
    while it != [] && it[0] == 255
      invariant TakeRunBytes(data) == match TakeRunBytes(it)
                                      case Fail(e) => Fail(e)
                                      case Ok(n, rest) => Ok(length + n, rest)
      decreases |it|
    {
      length := length + 255;
      it := it[1..];
    }
    if it == [] {
      return Fail(OutOfData);
    }
    return Ok(length + it[0], it[1..]);
  }

  /** The plain RLE loop. */
  method ReadPlainRle(total: int, data: Data) returns (r: Result<Data>)
    ensures r == PlainRle(total, 0, data)
  {
    var it, pixels, done: nat := data, [], 0;
    BeforeNothing(PlainRle(total, 0, data));
    while done < total
      invariant PlainRle(total, 0, data) == Before(pixels, PlainRle(total, done, it))
      decreases |it|
    {
      var color := TakePixel(it);
      if color.Fail? {
        return Fail(color.error);
      }
      var run := ReadRunBytes(color.rest);
      if run.Fail? {
        return Fail(run.error);
      }
      var painted := Repeat(color.value, run.value + 1);
      BeforeTwice(pixels, painted, PlainRle(total, done + run.value + 1, run.rest));
      pixels, done, it := pixels + painted, done + run.value + 1, run.rest;
    }
    if done != total {
      return Fail(TooManyPixels);
    }
    assert pixels + [] == pixels;
    return Ok(pixels, it);
  }

  /** The palette RLE loop. */
  method ReadPaletteRle(palette: seq<Data>, total: int, data: Data) returns (r: Result<Data>)
    ensures r == PaletteRle(palette, total, 0, data)
  {
    var it, pixels, done: nat := data, [], 0;
    BeforeNothing(PaletteRle(palette, total, 0, data));
    while done < total
      invariant PaletteRle(palette, total, 0, data) == Before(pixels, PaletteRle(palette, total, done, it))
      decreases |it|
    {
      if it == [] {
        return Fail(OutOfData);
      }
      var index := it[0] % 128;
      if index >= |palette| {
        return Fail(BadIndex);
      }
      if it[0] >= 128 {
        var run := ReadRunBytes(it[1..]);
        if run.Fail? {
          return Fail(run.error);
        }
        var painted := Repeat(palette[index], run.value + 1);
        BeforeTwice(pixels, painted, PaletteRle(palette, total, done + run.value + 1, run.rest));
        pixels, done, it := pixels + painted, done + run.value + 1, run.rest;
      } else {
        BeforeTwice(pixels, palette[index], PaletteRle(palette, total, done + 1, it[1..]));
        pixels, done, it := pixels + palette[index], done + 1, it[1..];
      }
    }
    if done != total {
      return Fail(TooManyPixels);
    }
    assert pixels + [] == pixels;
    return Ok(pixels, it);
  }

  /** The raw pixel loop. */
  method ReadPixels(n: int, data: Data) returns (r: Result<Data>)
    ensures r == TakePixels(n, data)
  {
    var it, pixels, left := data, [], n;
    BeforeNothing(TakePixels(n, data));
    while 0 < left
      invariant TakePixels(n, data) == Before(pixels, TakePixels(left, it))
      decreases left
    {
      var pixel := TakePixel(it);
      if pixel.Fail? {
        return Fail(pixel.error);
      }
      BeforeTwice(pixels, pixel.value, TakePixels(left - 1, pixel.rest));
      pixels, it, left := pixels + pixel.value, pixel.rest, left - 1;
    }
    assert pixels + [] == pixels;
    return Ok(pixels, it);
  }

  /** The loop over the `_zrle_next_*` generators, a byte at a time. */
  method ReadPacked(palette: seq<Data>, bits: nat, count: int, data: Data) returns (r: Result<Data>)
    requires bits in {1, 2, 4}
    ensures r == TakeLooked(palette, bits, count, data)
  {
    hide Indices, LookUp;
    var it, pixels, left := data, [], count;
    BeforeNothing(TakeLooked(palette, bits, count, data));
    while it != []
      invariant TakeLooked(palette, bits, count, data) == Before(pixels, TakeLooked(palette, bits, left, it))
      decreases |it|
    {
      var group := Indices(bits, it[0]);
      var last := 0 < left <= |group|;
      var looked := LookUp(palette, if last then group[..left] else group);
      if looked.None? {
        return Fail(BadIndex);
      }
      if last {
        return Ok(pixels + looked.value, it[1..]);
      }
      BeforeTwice(pixels, looked.value, TakeLooked(palette, bits, left - |group|, it[1..]));
      pixels, left, it := pixels + looked.value, left - |group|, it[1..];
    }
    return Fail(OutOfData);
  }

  /** One tile, dispatched on its subencoding. */
  method ReadTile(x: nat, y: nat, w: int, h: int, sub: Byte, data: Data) returns (r: Result<Paint>)
    ensures r == TakeTile(x, y, w, h, sub, data)
  {
    hide PlainRle, PaletteRle, TakePixels, TakeLooked, TakePalette;
    var pixels: Result<Data>;
    if sub == 1 {
      var color := TakePixel(data);
      if color.Fail? {
        return Fail(color.error);
      }
      return Ok(Solid(x, y, w, h, color.value), color.rest);
    } else if sub == 128 {
      pixels := ReadPlainRle(w * h, data);
    } else if sub > 128 {
      var palette := TakePalette(sub - 128, data);
      if palette.Fail? {
        return Fail(palette.error);
      }
      pixels := ReadPaletteRle(palette.value, w * h, palette.rest);
    } else if sub == 0 {
      pixels := ReadPixels(w * h, data);
    } else if sub > 16 {
      return Fail(PaletteTooBig);
    } else {
      var palette := TakePalette(sub, data);
      if palette.Fail? {
        return Fail(palette.error);
      }
      pixels := ReadPacked(palette.value, IndexBits(sub), w * h, palette.rest);
    }
    if pixels.Fail? {
      return Fail(pixels.error);
    }
    return Ok(Pixels(x, y, w, h, pixels.value), pixels.rest);
  }

  /** The tile loop. */
  method DecodeRectangle(r: Rect, data: Data) returns (paints: seq<Paint>, error: Option<Error>)
    ensures Decoded(paints, error) == Decode(r, r.x, r.y, data)
  {
    hide TakeTile;
    var tx: nat, ty: nat, it := r.x, r.y, data;
    paints := [];
    assert [] + Decode(r, r.x, r.y, data).paints == Decode(r, r.x, r.y, data).paints;
    while it != []
      invariant Decode(r, r.x, r.y, data) == var d := Decode(r, tx, ty, it); d.(paints := paints + d.paints)
      decreases |it|
    {
      var tile := ReadTile(tx, ty, Clip(r.x + r.w - tx), Clip(r.y + r.h - ty), it[0], it[1..]);
      if tile.Fail? {
        assert paints + [] == paints;
        return paints, Some(tile.error);
      }
      var nx: nat, ny: nat := tx + 64, ty;
      if nx >= r.x + r.w {
        nx, ny := r.x, ty + 64;
      }
      ghost var d := Decode(r, nx, ny, tile.rest);
      assert paints + ([tile.value] + d.paints) == (paints + [tile.value]) + d.paints;
      paints, tx, ty, it := paints + [tile.value], nx, ny, tile.rest;
    }
    assert paints + [] == paints;
    return paints, None;
  }
}
