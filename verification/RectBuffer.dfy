/**
  `RectBuffer` (vncdotool/decoders/buffer.py): a pixel buffer that holds a whole-rectangle
  blit by reference, clears its reused backing only when it must, and writes rows in place.
  It agrees with a plain two-dimensional canvas.
 */
module RectBuffers {
  import opened Bytes

  // ----- the plain canvas -----

  /** Rows from top to bottom, each a string of bytes. */
  type Canvas = seq<Data>

  datatype Write =
    | Blit(x: int, y: int, w: int, h: int, pixels: Data)
    | Fill(x: int, y: int, w: int, h: int, color: Data)

  function Zeros(n: nat): (s: Data)
    ensures |s| == n
  {
    seq(n, i => 0)
  }

  function ZeroCanvas(stride: nat, height: nat): Canvas {
    seq(height, i => Zeros(stride))
  }

  /** `n` copies of `s` in a row. */
  function Times(s: Data, n: nat): (r: Data)
    ensures |r| == Off(n, |s|)
  {
    if n == 0 then [] else Times(s, n - 1) + s
  }

  /** The product, by repeated addition: where row `r` of `stride` bytes starts, and how many
      bytes `r` pixels of `stride` bytes take. */
  function Off(r: nat, stride: nat): nat {
    if r == 0 then 0 else Off(r - 1, stride) + stride
  }

  lemma {:induction false} OffIsProduct(r: nat, stride: nat)
    ensures Off(r, stride) == r * stride
    decreases r
  {
    if r > 0 {
      OffIsProduct(r - 1, stride);
      assert (r - 1) * stride + stride == r * stride;
    }
  }

  /** The bytes of `w` by `h` pixels. */
  lemma {:induction false} BytesNeeded(w: nat, h: nat, bypp: nat)
    ensures Off(h, Off(w, bypp)) == w * h * bypp
  {
    OffIsProduct(w, bypp);
    OffIsProduct(h, w * bypp);
    assert h * (w * bypp) == (h * w) * bypp == w * h * bypp;
  }

  lemma {:induction false} OffSum(a: nat, b: nat, stride: nat)
    ensures Off(a + b, stride) == Off(a, stride) + Off(b, stride)
    decreases b
  {
    if b > 0 {
      OffSum(a, b - 1, stride);
      assert a + b - 1 == a + (b - 1);
    }
  }

  lemma {:induction false} OffOrder(a: nat, b: nat, stride: nat)
    requires a < b
    ensures Off(a, stride) + stride <= Off(b, stride)
  {
    OffSum(a, b - a, stride);
    assert stride <= Off(b - a, stride);
  }

  /** `_check_rect` and the length checks: what is not accepted raises DecodeError. */
  predicate Accepts(width: nat, height: nat, bypp: nat, c: Write) {
    && 0 <= c.x && 0 <= c.y && 0 <= c.w && 0 <= c.h
    && c.x + c.w <= width && c.y + c.h <= height
    && match c
       case Blit(_, _, w, h, pixels) => |pixels| == Off(h, Off(w, bypp))
       case Fill(_, _, _, _, color) => |color| == bypp
  }

  /** The bytes a write puts into its `i`th row. */
  function RowOf(bypp: nat, c: Write, i: nat): (s: Data)
    requires 0 <= c.w && i < c.h
    requires c.Blit? ==> |c.pixels| == Off(c.h, Off(c.w, bypp))
    requires c.Fill? ==> |c.color| == bypp
    ensures |s| == Off(c.w, bypp)
  {
    match c
    case Blit(_, _, w, h, pixels) =>
      OffOrder(i, h, Off(w, bypp));
      pixels[Off(i, Off(w, bypp))..Off(i, Off(w, bypp)) + Off(w, bypp)]
    case Fill(_, _, w, _, color) => Times(color, w)
  }

  /** A slice assignment of the same length. */
  function Patch(s: Data, at: nat, piece: Data): (t: Data)
    requires at + |piece| <= |s|
    ensures |t| == |s|
  {
    s[..at] + piece + s[at + |piece|..]
  }

  predicate IsCanvas(canvas: Canvas, stride: nat, height: nat) {
    |canvas| == height && forall r :: 0 <= r < height ==> |canvas[r]| == stride
  }

  lemma {:induction false} Inside(x: nat, w: nat, width: nat, bypp: nat)
    requires x + w <= width
    ensures Off(x, bypp) + Off(w, bypp) <= Off(width, bypp)
  {
    OffSum(x, w, bypp);
    OffSum(x + w, width - (x + w), bypp);
  }

  /** Row `r` once `c` has been written. */
  function RowAfter(width: nat, height: nat, bypp: nat, row: Data, c: Write, r: nat): (d: Data)
    requires |row| == Off(width, bypp) && r < height && Accepts(width, height, bypp, c)
    ensures |d| == Off(width, bypp)
  {
    hide Off;
    Inside(c.x, c.w, width, bypp);
    if c.y <= r < c.y + c.h then Patch(row, Off(c.x, bypp), RowOf(bypp, c, r - c.y)) else row
  }

  /** One write on the canvas. */
  function Apply(width: nat, height: nat, bypp: nat, canvas: Canvas, c: Write): (d: Canvas)
    requires IsCanvas(canvas, Off(width, bypp), height) && Accepts(width, height, bypp, c)
    ensures IsCanvas(d, Off(width, bypp), height)
  {
    hide Off, RowAfter, Accepts;
    seq(height, r requires 0 <= r < height => RowAfter(width, height, bypp, canvas[r], c, r))
  }

  lemma {:induction false} TimesAt(s: Data, n: nat, i: nat, j: nat)
    requires i < n && j < |s|
    ensures Off(i, |s|) + j < |Times(s, n)| && Times(s, n)[Off(i, |s|) + j] == s[j]
    decreases n
  {
    OffOrder(i, n, |s|);
    if i < n - 1 {
      TimesAt(s, n - 1, i, j);
    }
  }

  /** What one write means, byte by byte: byte `j` of the pixel in column `i` of row `r` is what the
      write puts there if it covers that pixel, and what it was otherwise. */
  lemma {:induction false} WriteMeaning(width: nat, height: nat, bypp: nat, canvas: Canvas, c: Write,
                                        r: nat, i: nat, j: nat)
    requires IsCanvas(canvas, Off(width, bypp), height) && Accepts(width, height, bypp, c)
    requires r < height && i < width && j < bypp
    ensures Off(i, bypp) + j < Off(width, bypp)
    ensures c.x <= i < c.x + c.w && c.y <= r < c.y + c.h && c.Blit? ==>
              Off(r - c.y, Off(c.w, bypp)) + (Off(i - c.x, bypp) + j) < |c.pixels|
    ensures Apply(width, height, bypp, canvas, c)[r][Off(i, bypp) + j] ==
            if c.x <= i < c.x + c.w && c.y <= r < c.y + c.h then
              if c.Blit? then c.pixels[Off(r - c.y, Off(c.w, bypp)) + (Off(i - c.x, bypp) + j)] else c.color[j]
            else canvas[r][Off(i, bypp) + j]
  {
    hide Off, Patch, RowOf, Accepts, IsCanvas;
    CoveredMeaning(width, height, bypp, c, r, i);
    OffOrder(i, width, bypp);
    var k := Off(i, bypp) + j;
    assert |canvas[r]| == Off(width, bypp) by { CanvasRow(canvas, Off(width, bypp), height, r); }
    if c.y <= r < c.y + c.h {
      PatchAt(canvas[r], Off(c.x, bypp), RowOf(bypp, c, r - c.y), k);
      if c.x <= i < c.x + c.w {
        RowOfAt(bypp, c, r - c.y, i - c.x, j);
      }
    }
  }

  lemma {:induction false} CanvasRow(canvas: Canvas, stride: nat, height: nat, r: nat)
    requires IsCanvas(canvas, stride, height) && r < height
    ensures r < |canvas| && |canvas[r]| == stride
  {
  }

  /** Where the pixels of column `i` lie, seen from the write. */
  lemma {:induction false} CoveredMeaning(width: nat, height: nat, bypp: nat, c: Write, r: nat, i: nat)
    requires Accepts(width, height, bypp, c) && i < width
    ensures 0 <= c.x && 0 <= c.y && 0 <= c.w && 0 <= c.h
    ensures c.Blit? ==> |c.pixels| == Off(c.h, Off(c.w, bypp))
    ensures c.Fill? ==> |c.color| == bypp
    ensures Off(c.x, bypp) + Off(c.w, bypp) <= Off(width, bypp)
    ensures if i < c.x then Off(i, bypp) + bypp <= Off(c.x, bypp)
            else if i < c.x + c.w then
              Off(i, bypp) == Off(c.x, bypp) + Off(i - c.x, bypp) && Off(i - c.x, bypp) + bypp <= Off(c.w, bypp)
            else Off(c.x, bypp) + Off(c.w, bypp) <= Off(i, bypp)
  {
    hide Off;
    Inside(c.x, c.w, width, bypp);
    if i < c.x {
      OffOrder(i, c.x, bypp);
    } else if i < c.x + c.w {
      OffSum(c.x, i - c.x, bypp);
      OffOrder(i - c.x, c.w, bypp);
    } else {
      OffSum(c.x, c.w, bypp);
      OffSum(c.x + c.w, i - (c.x + c.w), bypp);
    }
  }

  lemma {:induction false} PatchAt(s: Data, at: nat, piece: Data, k: nat)
    requires at + |piece| <= |s| && k < |s|
    ensures Patch(s, at, piece)[k] == if at <= k < at + |piece| then piece[k - at] else s[k]
  {
  }

  lemma {:induction false} RowOfAt(bypp: nat, c: Write, r: nat, i: nat, j: nat)
    requires 0 <= c.w && r < c.h && i < c.w && j < bypp
    requires c.Blit? ==> |c.pixels| == Off(c.h, Off(c.w, bypp))
    requires c.Fill? ==> |c.color| == bypp
    ensures Off(i, bypp) + j < Off(c.w, bypp)
    ensures c.Blit? ==> Off(r, Off(c.w, bypp)) + (Off(i, bypp) + j) < |c.pixels|
    ensures RowOf(bypp, c, r)[Off(i, bypp) + j] ==
            if c.Blit? then c.pixels[Off(r, Off(c.w, bypp)) + (Off(i, bypp) + j)] else c.color[j]
  {
    hide Off, Times;
    OffOrder(i, c.w, bypp);
    if c.Blit? {
      OffOrder(r, c.h, Off(c.w, bypp));
    } else {
      TimesAt(c.color, c.w, i, j);
    }
  }

  /** All writes, in order, on an all-zero canvas. */
  function Render(width: nat, height: nat, bypp: nat, log: seq<Write>): (d: Canvas)
    requires forall i :: 0 <= i < |log| ==> Accepts(width, height, bypp, log[i])
    ensures IsCanvas(d, Off(width, bypp), height)
  {
    if log == [] then ZeroCanvas(Off(width, bypp), height)
    else Apply(width, height, bypp, Render(width, height, bypp, log[..|log| - 1]), log[|log| - 1])
  }

  /** The canvas as one string, row after row. */
  function Flatten(canvas: Canvas): Data {
    if canvas == [] then [] else Flatten(canvas[..|canvas| - 1]) + canvas[|canvas| - 1]
  }

  // ----- a canvas laid out in memory -----

  /** `s` holds the canvas row after row, from its start. */
  predicate Holds(s: Data, stride: nat, canvas: Canvas) {
    && Off(|canvas|, stride) <= |s|
    && forall r :: 0 <= r < |canvas| ==> RowAt(s, stride, r) == canvas[r]
  }

  function RowAt(s: Data, stride: nat, r: nat): Data {
    if Off(r, stride) + stride <= |s| then s[Off(r, stride)..Off(r, stride) + stride] else []
  }

  lemma {:induction false} HeldIsFlat(s: Data, stride: nat, canvas: Canvas)
    requires Holds(s, stride, canvas) && forall r :: 0 <= r < |canvas| ==> |canvas[r]| == stride
    ensures s[..Off(|canvas|, stride)] == Flatten(canvas)
    decreases |canvas|
  {
    if canvas != [] {
      var n := |canvas| - 1;
      var init := canvas[..n];
      HeldIsFlat(s, stride, init);
      assert s[..Off(n + 1, stride)] == s[..Off(n, stride)] + s[Off(n, stride)..Off(n, stride) + stride];
      assert RowAt(s, stride, n) == canvas[n];
    }
  }

  /** A slice that ends before the patch, or starts after it, is not affected. */
  lemma {:induction false} PatchElsewhere(s: Data, at: nat, piece: Data, lo: nat, hi: nat)
    requires at + |piece| <= |s| && lo <= hi <= |s| && (hi <= at || at + |piece| <= lo)
    ensures Patch(s, at, piece)[lo..hi] == s[lo..hi]
  {
  }

  /** A slice around the patch is patched. */
  lemma {:induction false} PatchAround(s: Data, at: nat, piece: Data, lo: nat, hi: nat)
    requires lo <= at && at + |piece| <= hi <= |s|
    ensures Patch(s, at, piece)[lo..hi] == Patch(s[lo..hi], at - lo, piece)
  {
  }

  /** A slice within the patch is a slice of the piece. */
  lemma {:induction false} PatchWithin(s: Data, at: nat, piece: Data, lo: nat, hi: nat)
    requires at <= lo <= hi <= at + |piece| <= |s|
    ensures Patch(s, at, piece)[lo..hi] == piece[lo - at..hi - at]
  {
  }

  /** Writing inside row `r` changes that row as on the canvas, and no other. */
  lemma {:induction false} PatchRow(s: Data, stride: nat, height: nat, r: nat, at: nat, piece: Data, q: nat)
    requires Off(height, stride) <= |s| && r < height && q < height && at + |piece| <= stride
    ensures Off(r, stride) + at + |piece| <= |s| && |RowAt(s, stride, r)| == stride
    ensures RowAt(Patch(s, Off(r, stride) + at, piece), stride, q) ==
            if q == r then Patch(RowAt(s, stride, r), at, piece) else RowAt(s, stride, q)
  {
    hide Off, Patch;
    OffOrder(r, height, stride);
    OffOrder(q, height, stride);
    var lo := Off(q, stride);
    if q == r {
      PatchAround(s, lo + at, piece, lo, lo + stride);
    } else {
      if q < r {
        OffOrder(q, r, stride);
      } else {
        OffOrder(r, q, stride);
      }
      PatchElsewhere(s, Off(r, stride) + at, piece, lo, lo + stride);
    }
  }

  /** Writing `h` full rows at once changes exactly those rows. */
  lemma {:induction false} PatchRows(s: Data, stride: nat, height: nat, y: nat, h: nat, piece: Data, q: nat)
    requires Off(height, stride) <= |s| && y + h <= height && |piece| == Off(h, stride) && q < height
    ensures Off(y, stride) + |piece| <= |s|
    ensures RowAt(Patch(s, Off(y, stride), piece), stride, q) ==
            if y <= q < y + h then RowAt(piece, stride, q - y) else RowAt(s, stride, q)
  {
    hide Off, Patch;
    OffSum(y, h, stride);
    OffSum(y + h, height - (y + h), stride);
    OffOrder(q, height, stride);
    var at, lo := Off(y, stride), Off(q, stride);
    if y <= q < y + h {
      OffOrder(q - y, h, stride);
      OffSum(y, q - y, stride);
      PatchWithin(s, at, piece, lo, lo + stride);
    } else {
      if q < y {
        OffOrder(q, y, stride);
      } else {
        OffSum(y + h, q - (y + h), stride);
      }
      PatchElsewhere(s, at, piece, lo, lo + stride);
    }
  }

  /** `s` holds `after` in the first `i` rows from `y` on, and `before` in all others. */
  predicate Partly(s: Data, stride: nat, before: Canvas, after: Canvas, y: nat, i: nat) {
    && |before| == |after| && Off(|before|, stride) <= |s|
    && forall r :: 0 <= r < |before| ==> RowAt(s, stride, r) == if y <= r < y + i then after[r] else before[r]
  }

  lemma {:induction false} OneRowMore(s: Data, width: nat, height: nat, bypp: nat, canvas: Canvas, c: Write, i: nat)
    requires IsCanvas(canvas, Off(width, bypp), height) && Accepts(width, height, bypp, c) && i < c.h
    requires Partly(s, Off(width, bypp), canvas, Apply(width, height, bypp, canvas, c), c.y, i)
    ensures var stride := Off(width, bypp);
            var at := Off(c.y + i, stride) + Off(c.x, bypp);
            && at + |RowOf(bypp, c, i)| <= |s| && at + |RowOf(bypp, c, i)| <= Off(height, stride)
            && Partly(Patch(s, at, RowOf(bypp, c, i)), stride, canvas,
                      Apply(width, height, bypp, canvas, c), c.y, i + 1)
  {
    hide Off, Patch, RowOf, RowAt, Accepts;
    InBounds(width, height, bypp, c, i);
    var stride, piece := Off(width, bypp), RowOf(bypp, c, i);
    var after := Apply(width, height, bypp, canvas, c);
    var t := Patch(s, Off(c.y + i, stride) + Off(c.x, bypp), piece);
    forall r | 0 <= r < height
      ensures RowAt(t, stride, r) == if c.y <= r < c.y + i + 1 then after[r] else canvas[r]
    {
      PatchRow(s, stride, height, c.y + i, Off(c.x, bypp), piece, r);
    }
  }

  lemma {:induction false} InBounds(width: nat, height: nat, bypp: nat, c: Write, i: nat)
    requires Accepts(width, height, bypp, c) && i < c.h
    ensures 0 <= c.x && 0 <= c.y && 0 <= c.w && c.y + i < height
    ensures c.Blit? ==> |c.pixels| == Off(c.h, Off(c.w, bypp))
    ensures c.Fill? ==> |c.color| == bypp
    ensures Off(c.x, bypp) + Off(c.w, bypp) <= Off(width, bypp)
    ensures Off(c.y + i, Off(width, bypp)) + Off(width, bypp) <= Off(height, Off(width, bypp))
  {
    hide Off;
    Inside(c.x, c.w, width, bypp);
    OffOrder(c.y + i, height, Off(width, bypp));
  }

  lemma {:induction false} AllRowsDone(s: Data, stride: nat, height: nat, width: nat, bypp: nat,
                                       canvas: Canvas, c: Write)
    requires stride == Off(width, bypp) && IsCanvas(canvas, stride, height) && Accepts(width, height, bypp, c)
    requires Partly(s, stride, canvas, Apply(width, height, bypp, canvas, c), c.y, c.h)
    ensures Holds(s, stride, Apply(width, height, bypp, canvas, c))
  {
    hide Off, Patch, RowOf, RowAt;
  }

  /** Full-width rows written as one band. */
  lemma {:induction false} BandWritten(s: Data, width: nat, height: nat, bypp: nat,
                                       canvas: Canvas, c: Write, piece: Data)
    requires IsCanvas(canvas, Off(width, bypp), height) && Accepts(width, height, bypp, c) && c.x == 0 && c.w == width
    requires Off(height, Off(width, bypp)) <= |s|
    requires forall r :: 0 <= r < height && !(c.y <= r < c.y + c.h) ==> RowAt(s, Off(width, bypp), r) == canvas[r]
    requires |piece| == Off(c.h, Off(width, bypp))
    requires forall i :: 0 <= i < c.h ==> RowAt(piece, Off(width, bypp), i) == RowOf(bypp, c, i)
    ensures var stride := Off(width, bypp);
            && Off(c.y, stride) + |piece| <= Off(height, stride)
            && Holds(Patch(s, Off(c.y, stride), piece), stride, Apply(width, height, bypp, canvas, c))
  {
    hide Off, Patch, RowOf, RowAt;
    var stride := Off(width, bypp);
    OffSum(c.y, c.h, stride);
    OffSum(c.y + c.h, height - (c.y + c.h), stride);
    assert Off(0, bypp) == 0 by { OffSum(0, 0, bypp); }
    var t := Patch(s, Off(c.y, stride), piece);
    forall r | 0 <= r < height ensures RowAt(t, stride, r) == Apply(width, height, bypp, canvas, c)[r] {
      PatchRows(s, stride, height, c.y, c.h, piece, r);
      if c.y <= r < c.y + c.h {
        FullRow(canvas[r], RowOf(bypp, c, r - c.y));
      }
    }
  }

  /** Everything past the rectangle is left as it was. */
  lemma {:induction false} PatchKeepsTail(s: Data, at: nat, piece: Data, n: nat)
    requires at + |piece| <= n <= |s|
    ensures Patch(s, at, piece)[n..] == s[n..]
  {
  }

  /** A string stored at the front holds what it held on its own. */
  lemma {:induction false} FrontHolds(s: Data, front: Data, stride: nat, canvas: Canvas)
    requires |front| <= |s| && Holds(front, stride, canvas)
    ensures Holds(Patch(s, 0, front), stride, canvas)
  {
    hide Off, Patch;
    var t := Patch(s, 0, front);
    forall r | 0 <= r < |canvas| ensures RowAt(t, stride, r) == canvas[r] {
      OffOrder(r, |canvas|, stride);
      PatchWithin(s, 0, front, Off(r, stride), Off(r, stride) + stride);
    }
  }

  lemma {:induction false} ZerosHold(stride: nat, height: nat)
    ensures Holds(Zeros(Off(height, stride)), stride, ZeroCanvas(stride, height))
  {
    hide Off;
    forall r | 0 <= r < height ensures RowAt(Zeros(Off(height, stride)), stride, r) == Zeros(stride) {
      OffOrder(r, height, stride);
    }
  }

  lemma {:induction false} TimesRow(s: Data, n: nat, i: nat)
    requires i < n
    ensures RowAt(Times(s, n), |s|, i) == s
    decreases n
  {
    if i < n - 1 {
      TimesRow(s, n - 1, i);
      OffOrder(i, n - 1, |s|);
    }
  }

  // ----- the source's object -----

  class RectBuffer {
    const width: nat
    const height: nat
    const bypp: nat
    const nbytes: nat
    const backing: array<Byte>
    var whole: Option<Data>
    var covered: bool
    /** Every write accepted so far. */
    ghost var log: seq<Write>

    ghost predicate Logged()
      reads this
    {
      forall i :: 0 <= i < |log| ==> Accepts(width, height, bypp, log[i])
    }

    ghost function Picture(): Canvas
      requires Logged()
      reads this
    {
      Render(width, height, bypp, log)
    }

    ghost predicate Valid()
      reads this, backing
    {
      && Logged()
      && nbytes == Off(height, Off(width, bypp)) <= backing.Length
      && (covered <==> log != [])
      && (whole.Some? ==> covered && |whole.value| == nbytes && Holds(whole.value, Off(width, bypp), Picture()))
      && (whole.None? && covered ==> Holds(backing[..], Off(width, bypp), Picture()))
    }

    constructor (w: nat, h: nat, bytesPerPixel: nat, store: array<Byte>)
      requires w * h * bytesPerPixel <= store.Length
      ensures Valid() && log == [] && width == w && height == h && bypp == bytesPerPixel && backing == store
      ensures nbytes == w * h * bytesPerPixel
    {
      BytesNeeded(w, h, bytesPerPixel);
      width, height, bypp, nbytes, backing := w, h, bytesPerPixel, Off(h, Off(w, bytesPerPixel)), store;
      whole, covered, log := None, false, [];
    }

    /** A buffer over a shared backing, or null for the ValueError of one too small. */
    static method Over(w: nat, h: nat, bytesPerPixel: nat, store: array<Byte>) returns (b: RectBuffer?)
      ensures b == null <==> store.Length < w * h * bytesPerPixel
      ensures b != null ==> fresh(b) && b.Valid() && b.log == [] && b.backing == store
      ensures b != null ==> b.width == w && b.height == h && b.bypp == bytesPerPixel
    {
      if store.Length < w * h * bytesPerPixel {
        return null;
      }
      b := new RectBuffer(w, h, bytesPerPixel, store);
    }

    /** `backing[at:at + len(piece)] = piece`. */
    method Store(at: nat, piece: Data)
      requires at + |piece| <= backing.Length
      modifies backing
      ensures backing[..] == Patch(old(backing[..]), at, piece)
    {
      for i := 0 to |piece|
        invariant forall k :: 0 <= k < backing.Length ==>
                    backing[k] == if at <= k < at + i then piece[k - at] else old(backing[k])
      {
        backing[at + i] := piece[i];
      }
    }

    /** `_materialize` and `_clear`: the backing holds the picture so far, ready to be written into. */
    method Prepare()
      requires Valid()
      modifies this`whole, this`covered, backing
      ensures whole == None && covered && Logged()
      ensures Holds(backing[..], Off(width, bypp), Picture())
      ensures backing[nbytes..] == old(backing[nbytes..])
    {
      hide Off, Patch, Holds, Accepts;
      ghost var s := backing[..];
      if whole.Some? {
        Store(0, whole.value);
        FrontHolds(s, whole.value, Off(width, bypp), Picture());
        PatchKeepsTail(s, 0, whole.value, nbytes);
        whole := None;
      }
      if !covered {
        Store(0, Zeros(nbytes));
        ZerosHold(Off(width, bypp), height);
        FrontHolds(s, Zeros(nbytes), Off(width, bypp), Picture());
        PatchKeepsTail(s, 0, Zeros(nbytes), nbytes);
        covered := true;
      }
      assert backing[..][nbytes..] == backing[nbytes..] && s[nbytes..] == old(backing[nbytes..]);
    }

    /** The row loop of `blit` and `fill`. */
    method WriteRows(c: Write)
      requires Logged() && Accepts(width, height, bypp, c)
      requires nbytes == Off(height, Off(width, bypp)) <= backing.Length
      requires Holds(backing[..], Off(width, bypp), Picture())
      modifies backing
      ensures Holds(backing[..], Off(width, bypp), Apply(width, height, bypp, Picture(), c))
      ensures backing[nbytes..] == old(backing[nbytes..])
    {
      hide Off, Patch, RowAt, RowOf, Render, Apply, Accepts;
      var stride := Off(width, bypp);
      ghost var before, after := Picture(), Apply(width, height, bypp, Picture(), c);
      assert c.x >= 0 && c.y >= 0 && c.h >= 0 by { NonNegative(width, height, bypp, c); }
      for i := 0 to c.h
        invariant Partly(backing[..], stride, before, after, c.y, i)
        invariant backing[nbytes..] == old(backing[nbytes..])
      {
        hide Partly;
        ghost var s := backing[..];
        OneRowMore(s, width, height, bypp, before, c, i);
        InBounds(width, height, bypp, c, i);
        var at, piece := Off(c.y + i, stride) + Off(c.x, bypp), RowOf(bypp, c, i);
        Store(at, piece);
        PatchKeepsTail(s, at, piece, nbytes);
        assert backing[..][nbytes..] == backing[nbytes..] && s[nbytes..] == old(backing[nbytes..]);
      }
      AllRowsDone(backing[..], stride, height, width, bypp, before, c);
    }

    /** The single slice assignment both use for full-width rows. */
    method WriteBand(c: Write, piece: Data)
      requires Logged() && Accepts(width, height, bypp, c) && c.x == 0 && c.w == width
      requires nbytes == Off(height, Off(width, bypp)) <= backing.Length
      requires forall r :: 0 <= r < height && !(c.y <= r < c.y + c.h) ==>
                 RowAt(backing[..], Off(width, bypp), r) == Picture()[r]
      requires |piece| == Off(c.h, Off(width, bypp))
      requires forall i :: 0 <= i < c.h ==> RowAt(piece, Off(width, bypp), i) == RowOf(bypp, c, i)
      modifies backing
      ensures Holds(backing[..], Off(width, bypp), Apply(width, height, bypp, Picture(), c))
      ensures backing[nbytes..] == old(backing[nbytes..])
    {
      hide Off, Patch, RowAt, RowOf, Render, Apply, Holds;
      ghost var s := backing[..];
      BandWritten(s, width, height, bypp, Picture(), c, piece);
      var at := Off(c.y, Off(width, bypp));
      Store(at, piece);
      PatchKeepsTail(s, at, piece, nbytes);
      assert backing[..][nbytes..] == backing[nbytes..] && s[nbytes..] == old(backing[nbytes..]);
    }

    /** `blit`: false is the DecodeError. */
    method BlitPixels(x: int, y: int, w: int, h: int, pixels: Data) returns (accepted: bool)
      requires Valid()
      modifies this, backing
      ensures Valid()
      ensures accepted <==> Accepts(width, height, bypp, Blit(x, y, w, h, pixels))
      ensures accepted <==> && 0 <= x && 0 <= y && 0 <= w && 0 <= h && x + w <= width && y + h <= height
                            && |pixels| == w * h * bypp
      ensures log == if accepted then old(log) + [Blit(x, y, w, h, pixels)] else old(log)
      ensures !accepted ==> backing[..] == old(backing[..]) && whole == old(whole) && covered == old(covered)
      ensures backing[nbytes..] == old(backing[nbytes..])
    {
      hide Off, RowOf, RowAt, Render, Apply;
      var c := Blit(x, y, w, h, pixels);
      if 0 <= w && 0 <= h {
        BytesNeeded(w, h, bypp);
      }
      if !Accepts(width, height, bypp, c) {
        return false;
      }
      if x == 0 && y == 0 && w == width && h == height {
        WholeBlit(width, height, bypp, Picture(), pixels);
        whole, covered := Some(pixels), true;
      } else {
        Prepare();
        if x == 0 && w == width {
          BandOfPixels(width, height, bypp, c);
          WriteBand(c, pixels);
        } else {
          WriteRows(c);
        }
      }
      RenderMore(width, height, bypp, log, c);
      log := log + [c];
      return true;
    }

    /** `fill`: false is the DecodeError. */
    method FillColor(x: int, y: int, w: int, h: int, color: Data) returns (accepted: bool)
      requires Valid()
      modifies this, backing
      ensures Valid()
      ensures accepted <==> Accepts(width, height, bypp, Fill(x, y, w, h, color))
      ensures accepted <==> && 0 <= x && 0 <= y && 0 <= w && 0 <= h && x + w <= width && y + h <= height
                            && |color| == bypp
      ensures log == if accepted then old(log) + [Fill(x, y, w, h, color)] else old(log)
      ensures !accepted ==> backing[..] == old(backing[..]) && whole == old(whole) && covered == old(covered)
      ensures backing[nbytes..] == old(backing[nbytes..])
    {
      hide Off, RowOf, RowAt, Render, Apply;
      var c := Fill(x, y, w, h, color);
      if !Accepts(width, height, bypp, c) {
        return false;
      }
      if x == 0 && y == 0 && w == width && h == height {
        // Every byte is about to be written, so nothing needs clearing first.
        WholeFill(c);
      } else {
        Prepare();
        if x == 0 && w == width {
          BandOfColor(width, height, bypp, c);
          WriteBand(c, Times(Times(color, w), h));
        } else {
          WriteRows(c);
        }
      }
      RenderMore(width, height, bypp, log, c);
      log := log + [c];
      return true;
    }

    /** A fill of the whole rectangle, which skips the clearing. */
    method WholeFill(c: Write)
      requires Valid() && c.Fill? && Accepts(width, height, bypp, c)
      requires c.x == 0 && c.y == 0 && c.w == width && c.h == height
      modifies this`whole, this`covered, backing
      ensures whole == None && covered && Logged()
      ensures Holds(backing[..], Off(width, bypp), Apply(width, height, bypp, Picture(), c))
      ensures backing[nbytes..] == old(backing[nbytes..])
    {
      hide Off, Patch, RowAt, RowOf, Render, Apply, Holds;
      ghost var s := backing[..];
      if whole.Some? {
        Store(0, whole.value);
        PatchKeepsTail(s, 0, whole.value, nbytes);
        whole := None;
      }
      assert backing[..][nbytes..] == backing[nbytes..] && s[nbytes..] == old(backing[nbytes..]);
      covered := true;
      BandOfColor(width, height, bypp, c);
      WriteBand(c, Times(Times(c.color, width), height));
    }

    /** `tobytes`: after at least one accepted write, the writes folded over an all-zero canvas,
        whatever the backing held before. */
    method ToBytes() returns (s: Data)
      requires Valid()
      ensures log != [] ==> Logged() && s == Flatten(Picture())
      ensures |s| == nbytes
    {
      if whole.Some? {
        s := whole.value;
        HeldIsFlat(s, Off(width, bypp), Picture());
        assert s[..nbytes] == s;
      } else {
        s := backing[..nbytes];
        if covered {
          HeldIsFlat(backing[..], Off(width, bypp), Picture());
          assert backing[..][..nbytes] == s;
        }
      }
    }
  }

  // ----- steps of the methods above -----

  lemma {:induction false} NonNegative(width: nat, height: nat, bypp: nat, c: Write)
    requires Accepts(width, height, bypp, c)
    ensures 0 <= c.x && 0 <= c.y && 0 <= c.w && 0 <= c.h && c.y + c.h <= height
  {
  }

  lemma {:induction false} FullRow(row: Data, piece: Data)
    requires |piece| == |row|
    ensures Patch(row, 0, piece) == piece
  {
  }

  lemma {:induction false} WholeBlit(width: nat, height: nat, bypp: nat, canvas: Canvas, pixels: Data)
    requires IsCanvas(canvas, Off(width, bypp), height) && |pixels| == Off(height, Off(width, bypp))
    ensures Accepts(width, height, bypp, Blit(0, 0, width, height, pixels))
    ensures Holds(pixels, Off(width, bypp), Apply(width, height, bypp, canvas, Blit(0, 0, width, height, pixels)))
  {
    hide Off, Patch, Times;
    assert Off(0, bypp) == 0 by { OffSum(0, 0, bypp); }
    var c := Blit(0, 0, width, height, pixels);
    forall r | 0 <= r < height ensures RowAt(pixels, Off(width, bypp), r) == Apply(width, height, bypp, canvas, c)[r] {
      OffOrder(r, height, Off(width, bypp));
      FullRow(canvas[r], RowOf(bypp, c, r));
    }
  }

  lemma {:induction false} BandOfPixels(width: nat, height: nat, bypp: nat, c: Write)
    requires Accepts(width, height, bypp, c) && c.Blit? && c.w == width
    ensures forall i :: 0 <= i < c.h ==> RowAt(c.pixels, Off(width, bypp), i) == RowOf(bypp, c, i)
  {
    forall i | 0 <= i < c.h ensures RowAt(c.pixels, Off(width, bypp), i) == RowOf(bypp, c, i) {
      OffOrder(i, c.h, Off(width, bypp));
    }
  }

  lemma {:induction false} BandOfColor(width: nat, height: nat, bypp: nat, c: Write)
    requires Accepts(width, height, bypp, c) && c.Fill? && c.w == width
    ensures var piece := Times(Times(c.color, width), c.h);
            && |piece| == Off(c.h, Off(width, bypp))
            && forall i :: 0 <= i < c.h ==> RowAt(piece, Off(width, bypp), i) == RowOf(bypp, c, i)
  {
    forall i | 0 <= i < c.h
      ensures RowAt(Times(Times(c.color, width), c.h), Off(width, bypp), i) == RowOf(bypp, c, i)
    {
      TimesRow(Times(c.color, width), c.h, i);
    }
  }

  lemma {:induction false} RenderMore(width: nat, height: nat, bypp: nat, log: seq<Write>, c: Write)
    requires forall i :: 0 <= i < |log| ==> Accepts(width, height, bypp, log[i])
    requires Accepts(width, height, bypp, c)
    ensures forall i :: 0 <= i < |log + [c]| ==> Accepts(width, height, bypp, (log + [c])[i])
    ensures Render(width, height, bypp, log + [c]) == Apply(width, height, bypp, Render(width, height, bypp, log), c)
  {
    assert (log + [c])[..|log + [c]| - 1] == log;
  }

  /** The pump's last steps for a Raw rectangle (vncdotool/decoders/raw.py): a reused backing,
      one blit, and out again unchanged. */
  method DecodeRaw(width: nat, height: nat, bypp: nat, store: array<Byte>, data: Data) returns (out: Data)
    requires width * height * bypp <= store.Length && |data| == width * height * bypp
    modifies store
    ensures out == data
  {
    BytesNeeded(width, height, bypp);
    var target := new RectBuffer(width, height, bypp, store);
    WholeBlit(width, height, bypp, target.Picture(), data);
    var accepted := target.BlitPixels(0, 0, width, height, data);
    out := target.ToBytes();
    RenderMore(width, height, bypp, [], Blit(0, 0, width, height, data));
    assert target.log == [] + [Blit(0, 0, width, height, data)];
    HeldIsFlat(data, Off(width, bypp), target.Picture());
    assert data[..|data|] == data;
  }
}
