/**
  The tile walk shared by Hextile (16x16) and ZRLE (64x64) in vncdotool/rfb.py: left to right,
  top to bottom, clipped to the rectangle. The tiles partition the rectangle.
 */
module Tiling {
  datatype Rect = Rect(x: nat, y: nat, w: nat, h: nat)

  function Min(a: int, b: int): int { if a < b then a else b }

  /** The tiles from (tx, ty) on. */
  function TilesFrom(k: nat, r: Rect, tx: nat, ty: nat): seq<Rect>
    requires 0 < k && r.x <= tx <= r.x + r.w
    decreases r.y + r.h - ty, r.x + r.w - tx
  {
    if ty >= r.y + r.h then []
    else
      [Rect(tx, ty, Min(k, r.x + r.w - tx), Min(k, r.y + r.h - ty))] +
      if tx + k >= r.x + r.w then TilesFrom(k, r, r.x, ty + k) else TilesFrom(k, r, tx + k, ty)
  }

  function Tiles(k: nat, r: Rect): seq<Rect>
    requires 0 < k
  {
    TilesFrom(k, r, r.x, r.y)
  }

  predicate Contains(r: Rect, px: nat, py: nat) {
    r.x <= px < r.x + r.w && r.y <= py < r.y + r.h
  }

  /** In how many of the rectangles a pixel lies. */
  function Coverage(rs: seq<Rect>, px: nat, py: nat): nat {
    if rs == [] then 0 else (if Contains(rs[0], px, py) then 1 else 0) + Coverage(rs[1..], px, py)
  }

  /** The pixels the walk has yet to reach from (tx, ty): the rest of this row of tiles and all below. */
  predicate Ahead(k: nat, r: Rect, tx: nat, ty: nat, px: nat, py: nat) {
    Contains(r, px, py) && (py >= ty + k || (py >= ty && px >= tx))
  }

  lemma {:induction false} WalkCovers(k: nat, r: Rect, tx: nat, ty: nat, px: nat, py: nat)
    requires 0 < k && r.y <= ty && r.x <= tx <= r.x + r.w && (tx == r.x || tx < r.x + r.w)
    ensures Coverage(TilesFrom(k, r, tx, ty), px, py) == if Ahead(k, r, tx, ty, px, py) then 1 else 0
    decreases r.y + r.h - ty, r.x + r.w - tx
  {
    if ty >= r.y + r.h {
      assert TilesFrom(k, r, tx, ty) == [];
    } else {
      var last := tx + k >= r.x + r.w;
      var rest := if last then TilesFrom(k, r, r.x, ty + k) else TilesFrom(k, r, tx + k, ty);
      var tile := Rect(tx, ty, Min(k, r.x + r.w - tx), Min(k, r.y + r.h - ty));
      assert TilesFrom(k, r, tx, ty) == [tile] + rest && ([tile] + rest)[1..] == rest;
      WalkCovers(k, r, if last then r.x else tx + k, if last then ty + k else ty, px, py);
      assert Contains(tile, px, py) <==>
             Ahead(k, r, tx, ty, px, py) &&
             !Ahead(k, r, if last then r.x else tx + k, if last then ty + k else ty, px, py);
    }
  }

  /** Every pixel of the rectangle lies in exactly one tile, and no pixel outside it in any. */
  lemma {:induction false} TilesPartition(k: nat, r: Rect, px: nat, py: nat)
    requires 0 < k
    ensures Coverage(Tiles(k, r), px, py) == if Contains(r, px, py) then 1 else 0
  {
    WalkCovers(k, r, r.x, r.y, px, py);
  }
}
