/** Choosing the source and destination rectangles of a blit: the clip is cut to the destination, turned back through
    the flips and the rotation, and rescaled to the source with 16.16 fixed-point factors. */
module BlitRects {

  /** copybit_rect_t */
  datatype Edges = Edges(l: int, t: int, r: int, b: int)

  /** blt_rect */
  datatype Rect = Rect(x: int, y: int, width: int, height: int) {
    predicate Has(p: Point) { x <= p.x < x + width && y <= p.y < y + height }
  }

  datatype Point = Point(x: int, y: int)

  function Min(a: int, b: int): int { if a < b then a else b }
  function Max(a: int, b: int): int { if a > b then a else b }

  // ----- 32-bit arithmetic of the code

  const TWO_30: int := 0x4000_0000
  const TWO_31: int := 0x8000_0000
  const TWO_32: int := 0x1_0000_0000

  function ToInt32(n: int): int { (n + TWO_31) % TWO_32 - TWO_31 }
  function ToUint32(n: int): int { n % TWO_32 }

  /** Signed division truncates toward zero. */
  function TruncDiv(a: int, b: int): int
    requires b != 0
  {
    var q := (if a < 0 then -a else a) / (if b < 0 then -b else b);
    if (a < 0) == (b < 0) then q else -q
  }

  // ----- transform codes

  predicate FlipH(code: nat) { code % 2 == 1 }
  predicate FlipV(code: nat) { code / 2 % 2 == 1 }
  predicate Rotates(code: nat) { code / 4 % 2 == 1 }

  // ----- what set_rects computes, in unbounded arithmetic

  function Normalised(e: Edges): Rect { Rect(0, 0, e.r - e.l, e.b - e.t) }

  /** The part of the destination inside the clip, relative to the destination. */
  function Clipped(dst: Edges, clip: Edges): Rect {
    var l, t := Max(0, clip.l - dst.l), Max(0, clip.t - dst.t);
    Rect(l, t, Min(dst.r, clip.r) - dst.l - l, Min(dst.b, clip.b) - dst.t - t)
  }

  /** Where the code looks for the pixel shown at p of a dw x dh destination, before rescaling. */
  function SourcePixel(code: nat, dw: int, dh: int, p: Point): Point {
    var q := Point(if FlipH(code) then dw - 1 - p.x else p.x, if FlipV(code) then dh - 1 - p.y else p.y);
    if Rotates(code) then Point(dh - 1 - q.y, q.x) else q
  }

  function Oriented(code: nat, dw: int, dh: int, c: Rect): Rect {
    var x := if FlipH(code) then dw - (c.width + c.x) else c.x;
    var y := if FlipV(code) then dh - (c.height + c.y) else c.y;
    if Rotates(code) then Rect(dh - (y + c.height), x, c.height, c.width) else Rect(x, y, c.width, c.height)
  }

  function Factor(s: int, d: int): int
    requires 0 < d
  {
    s * 0x1_0000 / d
  }

  function ScaledPos(x: int, s: int, d: int): int
    requires 0 < d
  {
    if Factor(s, d) == 0x1_0000 then x else x * Factor(s, d) / 0x1_0000
  }

  function ScaledLen(w: int, s: int, d: int): int
    requires 0 < d
  {
    if Factor(s, d) == 0x1_0000 then w else (w * Factor(s, d) + 0x8000) / 0x1_0000
  }

  function Rescaled(r: Rect, sw: int, sh: int, dw: int, dh: int): Rect
    requires 0 < dw && 0 < dh
  {
    Rect(ScaledPos(r.x, sw, dw), ScaledPos(r.y, sh, dh), ScaledLen(r.width, sw, dw), ScaledLen(r.height, sh, dh))
  }

  function Moved(r: Rect, dx: int, dy: int): Rect { Rect(r.x + dx, r.y + dy, r.width, r.height) }

  function SourceRect(src: Edges, dst: Edges, clip: Edges, code: nat): Rect
    requires dst.l < dst.r && dst.t < dst.b
  {
    var d, s := Normalised(dst), Normalised(src);
    var o := Oriented(code, d.width, d.height, Clipped(dst, clip));
    var scaled := if Rotates(code) then Rescaled(o, s.width, s.height, d.height, d.width)
                  else Rescaled(o, s.width, s.height, d.width, d.height);
    Moved(scaled, src.l, src.t)
  }

  /** The rescaling as the code computes it: the products wrap at 32 bits. */
  function Pos32(x: int, s: int, d: int): int
    requires 0 < d
  {
    if Factor(s, d) == 0x1_0000 then x else ToInt32(x * Factor(s, d)) / 0x1_0000
  }

  function Len32(w: int, s: int, d: int): int
    requires 0 < d
  {
    if Factor(s, d) == 0x1_0000 then w else ToInt32(ToInt32(w * Factor(s, d)) + 0x8000) / 0x1_0000
  }

  function Rescaled32(r: Rect, sw: int, sh: int, dw: int, dh: int): Rect
    requires 0 < dw && 0 < dh
  {
    Rect(Pos32(r.x, sw, dw), Pos32(r.y, sh, dh), Len32(r.width, sw, dw), Len32(r.height, sh, dh))
  }

  function SourceRect32(src: Edges, dst: Edges, clip: Edges, code: nat): Rect
    requires dst.l < dst.r && dst.t < dst.b
  {
    var d, s := Normalised(dst), Normalised(src);
    var o := Oriented(code, d.width, d.height, Clipped(dst, clip));
    var scaled := if Rotates(code) then Rescaled32(o, s.width, s.height, d.height, d.width)
                  else Rescaled32(o, s.width, s.height, d.width, d.height);
    Rect(ToInt32(scaled.x + src.l), ToInt32(scaled.y + src.t), scaled.width, scaled.height)
  }

  function DestRect(dst: Edges, clip: Edges): Rect {
    Moved(Clipped(dst, clip), dst.l, dst.t)
  }

  // ----- flips and rotation

  /** The rectangle the code computes is the set of pixels it looks for. */
  lemma OrientedPointwise(code: nat, dw: int, dh: int, c: Rect, p: Point)
    ensures c.Has(p) <==> Oriented(code, dw, dh, c).Has(SourcePixel(code, dw, dh, p))
    ensures Oriented(code, dw, dh, c).width * Oriented(code, dw, dh, c).height == c.width * c.height
  {
  }

  function DestPixel(code: nat, dw: int, dh: int, p: Point): Point {
    var q := if Rotates(code) then Point(p.y, dh - 1 - p.x) else p;
    Point(if FlipH(code) then dw - 1 - q.x else q.x, if FlipV(code) then dh - 1 - q.y else q.y)
  }

  /** Every pixel of the plane is looked for by exactly one destination pixel. */
  lemma SourcePixelBijective(code: nat, dw: int, dh: int, p: Point)
    ensures DestPixel(code, dw, dh, SourcePixel(code, dw, dh, p)) == p
    ensures SourcePixel(code, dw, dh, DestPixel(code, dw, dh, p)) == p
  {
  }

  ghost predicate Disjoint(a: Rect, b: Rect) {
    forall p: Point :: !(a.Has(p) && b.Has(p))
  }

  /** Disjoint clips take disjoint sources, before rescaling. */
  lemma DisjointClips(code: nat, dw: int, dh: int, a: Rect, b: Rect)
    requires Disjoint(a, b)
    ensures Disjoint(Oriented(code, dw, dh, a), Oriented(code, dw, dh, b))
  {
    forall p: Point
      ensures !(Oriented(code, dw, dh, a).Has(p) && Oriented(code, dw, dh, b).Has(p))
    {
      var q := DestPixel(code, dw, dh, p);
      SourcePixelBijective(code, dw, dh, p);
      OrientedPointwise(code, dw, dh, a, q);
      OrientedPointwise(code, dw, dh, b, q);
      assert !(a.Has(q) && b.Has(q));
    }
  }

  /** The documented meaning of a code: the source is flipped and then rotated 90 degrees counter-clockwise. The
      pixel shown at p is found by undoing the rotation and then the flips, in a source of dh x dw pixels when
      rotated. */
  function DocumentedPixel(code: nat, dw: int, dh: int, p: Point): Point {
    var q := if Rotates(code) then Point(dh - 1 - p.y, p.x) else p;
    var w, h := if Rotates(code) then dh else dw, if Rotates(code) then dw else dh;
    Point(if FlipH(code) then w - 1 - q.x else q.x, if FlipV(code) then h - 1 - q.y else q.y)
  }

  /** The code finds the documented pixel for every code but the two that flip one axis and rotate. */
  lemma DocumentedExactly(code: nat, dw: int, dh: int)
    requires code < 8
    ensures (forall p: Point :: SourcePixel(code, dw, dh, p) == DocumentedPixel(code, dw, dh, p)) <==> code !in {5, 6}
  {
    if code in {5, 6} {
      var p := Point(dw, dh);
      var q := Point(dw + 1, dh + 1);
      assert SourcePixel(code, dw, dh, p) != DocumentedPixel(code, dw, dh, p)
          || SourcePixel(code, dw, dh, q) != DocumentedPixel(code, dw, dh, q);
    }
  }

  // ----- rescaling one axis

  lemma MulMono(a: int, b: int, c: int)
    requires a <= b && 0 <= c
    ensures a * c <= b * c
  {
  }

  lemma FactorBounds(s: int, d: int)
    requires 0 <= s && 0 < d
    ensures 0 <= Factor(s, d)
    ensures Factor(s, d) * d <= s * 0x1_0000 < Factor(s, d) * d + d
  {
    var n := s * 0x1_0000;
    assert n == n / d * d + n % d;
  }

  /** The "no rescaling" test succeeds exactly when the two dimensions are equal. */
  lemma NoRescaleExactly(s: int, d: int)
    requires 0 <= s < 0x8000 && 0 < d
    ensures Factor(s, d) == 0x1_0000 <==> s == d
  {
    FactorBounds(s, d);
    if s == d {
      assert Factor(s, d) * d == 0x1_0000 * d by {
        if Factor(s, d) < 0x1_0000 {
          MulMono(Factor(s, d) + 1, 0x1_0000, d);
        } else {
          MulMono(0x1_0000, Factor(s, d), d);
        }
      }
    }
  }

  /** No product of the rescaling leaves 31 bits. */
  lemma ProductsFit(x: int, s: int, d: int)
    requires 0 <= x <= d && 0 <= s < 0x8000 && 0 < d
    ensures 0 <= s * 0x1_0000 < TWO_31
    ensures 0 <= x * Factor(s, d) <= s * 0x1_0000
    ensures x * Factor(s, d) + 0x8000 < TWO_31
  {
    FactorBounds(s, d);
    MulMono(x, d, Factor(s, d));
    MulMono(0, x, Factor(s, d));
  }

  /** A segment of the destination rescales into the source, although its start is rounded down and its length
      to the nearest. */
  lemma ScaledInside(x: int, w: int, s: int, d: int)
    requires 0 <= x && 0 <= w && x + w <= d && 0 <= s < 0x8000 && 0 < d
    ensures 0 <= ScaledPos(x, s, d) && 0 <= ScaledLen(w, s, d)
    ensures ScaledPos(x, s, d) + ScaledLen(w, s, d) <= s
  {
    var f := Factor(s, d);
    FactorBounds(s, d);
    NoRescaleExactly(s, d);
    if f != 0x1_0000 {
      ProductsFit(x + w, s, d);
      ProductsFit(x, s, d);
      ProductsFit(w, s, d);
      assert (x + w) * f == x * f + w * f;
    }
  }

  /** How far the rescaled segment is from the exact one, x*s/d long w*s/d: the start lies in (exact - 3/2, exact]
      and the length in (exact - 1, exact + 1/2]. Both sides are multiplied by 2*d. */
  lemma ScaledError(x: int, w: int, s: int, d: int)
    requires 0 <= x <= d && 0 <= w <= d && 0 <= s < 0x8000 && 0 < d < 0x8000
    ensures 2 * x * s - 3 * d < 2 * d * ScaledPos(x, s, d) <= 2 * x * s
    ensures 2 * w * s - 2 * d < 2 * d * ScaledLen(w, s, d) <= 2 * w * s + d
  {
    NoRescaleExactly(s, d);
    if Factor(s, d) == 0x1_0000 {
    } else {
      ProductBounds(x, s, d);
      ProductBounds(w, s, d);
      FloorError(x * Factor(s, d), x, s, d);
      RoundError(w * Factor(s, d), w, s, d);
    }
  }

  lemma ProductBounds(x: int, s: int, d: int)
    requires 0 <= x <= d && 0 <= s && 0 < d < 0x8000
    ensures x * s * 0x1_0000 - 0x8000 * d < x * Factor(s, d) * d <= x * s * 0x1_0000
  {
    var f := Factor(s, d);
    FactorBounds(s, d);
    MulMono(f * d, s * 0x1_0000, x);
    MulMono(s * 0x1_0000 - d, f * d, x);
    assert f * d * x == x * f * d;
    assert (s * 0x1_0000 - d) * x == x * s * 0x1_0000 - x * d;
    MulMono(x, 0x7FFF, d);
  }

  lemma FloorError(v: int, x: int, s: int, d: int)
    requires 0 < d && x * s * 0x1_0000 - 0x8000 * d < v * d <= x * s * 0x1_0000
    ensures 2 * x * s - 3 * d < 2 * d * (v / 0x1_0000) <= 2 * x * s
  {
    var q := v / 0x1_0000;
    MulMono(q * 0x1_0000, v, d);
    MulMono(v, q * 0x1_0000 + 0xFFFF, d);
    assert q * 0x1_0000 * d == 0x1_0000 * (q * d);
    assert 2 * d * q == 2 * (q * d);
    assert 2 * x * s == 2 * (x * s) && x * s * 0x1_0000 == 0x1_0000 * (x * s);
  }

  lemma RoundError(v: int, w: int, s: int, d: int)
    requires 0 < d && w * s * 0x1_0000 - 0x8000 * d < v * d <= w * s * 0x1_0000
    ensures 2 * w * s - 2 * d < 2 * d * ((v + 0x8000) / 0x1_0000) <= 2 * w * s + d
  {
    var q := (v + 0x8000) / 0x1_0000;
    MulMono(q * 0x1_0000, v + 0x8000, d);
    MulMono(v + 0x8000, q * 0x1_0000 + 0xFFFF, d);
    assert q * 0x1_0000 * d == 0x1_0000 * (q * d);
    assert 2 * d * q == 2 * (q * d);
    assert 2 * w * s == 2 * (w * s) && w * s * 0x1_0000 == 0x1_0000 * (w * s);
  }

  // ----- the whole computation

  /** Coordinates are far enough from the ends of 32 bits for their sums and differences, the destination is not
      empty, the source is not negative and less than 2^15 on both sides. */
  predicate InRange(src: Edges, dst: Edges, clip: Edges) {
    && Moderate(src) && Moderate(dst) && Moderate(clip)
    && dst.l < dst.r && dst.t < dst.b
    && 0 <= src.r - src.l < 0x8000 && 0 <= src.b - src.t < 0x8000
  }

  predicate Moderate(e: Edges) {
    && -0x2000_0000 < e.l < 0x2000_0000 && -0x2000_0000 < e.r < 0x2000_0000
    && -0x2000_0000 < e.t < 0x2000_0000 && -0x2000_0000 < e.b < 0x2000_0000
  }

  predicate Meets(dst: Edges, clip: Edges) {
    Clipped(dst, clip).width >= 0 && Clipped(dst, clip).height >= 0
  }

  predicate Inside(r: Rect, e: Edges) {
    && e.l <= r.x && r.x + r.width <= e.r && 0 <= r.width
    && e.t <= r.y && r.y + r.height <= e.b && 0 <= r.height
  }

  /** The destination rectangle has the pixels of the destination that are in the clip; none, if they do not meet. */
  lemma DestPointwise(dst: Edges, clip: Edges, p: Point)
    ensures DestRect(dst, clip).Has(p) <==>
              && Max(dst.l, clip.l) <= p.x < Min(dst.r, clip.r)
              && Max(dst.t, clip.t) <= p.y < Min(dst.b, clip.b)
  {
  }

  /** The destination rectangle is the intersection of the destination and the clip, and the source rectangle lies
      inside the source whatever the clip and the transform. */
  lemma RectsInside(src: Edges, dst: Edges, clip: Edges, code: nat)
    requires InRange(src, dst, clip) && Meets(dst, clip)
    ensures forall p: Point :: DestRect(dst, clip).Has(p) <==>
              && Max(dst.l, clip.l) <= p.x < Min(dst.r, clip.r)
              && Max(dst.t, clip.t) <= p.y < Min(dst.b, clip.b)
    ensures Inside(SourceRect(src, dst, clip, code), src)
  {
    var d, s := Normalised(dst), Normalised(src);
    var o := Oriented(code, d.width, d.height, Clipped(dst, clip));
    if Rotates(code) {
      ScaledInside(o.x, o.width, s.width, d.height);
      ScaledInside(o.y, o.height, s.height, d.width);
    } else {
      ScaledInside(o.x, o.width, s.width, d.width);
      ScaledInside(o.y, o.height, s.height, d.height);
    }
  }

  lemma WrapsNever()
    ensures forall n :: -TWO_31 <= n < TWO_31 ==> ToInt32(n) == n
    ensures forall n :: 0 <= n < TWO_32 ==> ToUint32(n) == n
  {
  }

  /** One axis of the rescaling: the position and the length are changed in place by products in unsigned 32-bit
      arithmetic, stored in signed fields and shifted. */
  method RescaleAxis(pos: int, len: int, s: int, d: int) returns (newPos: int, newLen: int)
    requires d != 0 && -TWO_31 <= d < TWO_31
    ensures 0 < d && 0 <= s < 0x8000 ==> newPos == Pos32(pos, s, d) && newLen == Len32(len, s, d)
  {
    hide ToInt32, ToUint32, TruncDiv, Factor;
    var rsf := ToUint32(TruncDiv(ToInt32(s * 0x1_0000), d));
    newPos, newLen := pos, len;
    if rsf != 0x1_0000 {
      UnsignedProduct(pos, rsf);
      UnsignedProduct(len, rsf);
      newPos := ToInt32(ToUint32(newPos) * rsf);
      newLen := ToInt32(ToUint32(newLen) * rsf);
      newPos := newPos / 0x1_0000;
      newLen := ToInt32(newLen + 0x8000) / 0x1_0000;
    }
    if 0 < d && 0 <= s < 0x8000 {
      FactorFits(s, d);
    }
  }

  lemma FactorFits(s: int, d: int)
    requires 0 < d < TWO_31 && 0 <= s < 0x8000
    ensures ToUint32(TruncDiv(ToInt32(s * 0x1_0000), d)) == Factor(s, d)
  {
    FactorBounds(s, d);
    assert Factor(s, d) <= s * 0x1_0000 by { MulMono(1, d, Factor(s, d)); }
    Quotient(s * 0x1_0000, d);
    WrapsNever();
  }

  lemma SameWrapped(m: int, n: int, k: int)
    requires n == m + k * TWO_32
    ensures ToInt32(n) == ToInt32(m)
  {
    var q, r := (m + TWO_31) / TWO_32, (m + TWO_31) % TWO_32;
    assert n + TWO_31 == (q + k) * TWO_32 + r;
  }

  /** Multiplying in unsigned arithmetic and storing the product as signed is multiplying the signed number. */
  lemma UnsignedProduct(x: int, f: int)
    ensures ToInt32(ToUint32(x) * f) == ToInt32(x * f)
  {
    var q := x / TWO_32;
    assert x == ToUint32(x) + q * TWO_32;
    assert x * f == ToUint32(x) * f + (q * f) * TWO_32;
    SameWrapped(ToUint32(x) * f, x * f, q * f);
  }

  /** The products are the exact ones as long as they fit 32 bits, negative lengths included. */
  lemma RescaleNoWrap(pos: int, len: int, s: int, d: int)
    requires 0 < d
    requires -TWO_31 <= pos * Factor(s, d) < TWO_31
    requires -TWO_31 <= len * Factor(s, d) && len * Factor(s, d) + 0x8000 < TWO_31
    ensures Pos32(pos, s, d) == ScaledPos(pos, s, d)
    ensures Len32(len, s, d) == ScaledLen(len, s, d)
  {
    hide Factor, ToInt32;
    WrapsNever();
  }

  /** They do fit for every piece of the destination. */
  lemma PieceNoWrap(pos: int, len: int, s: int, d: int)
    requires 0 < d && 0 <= s < 0x8000 && 0 <= pos && 0 <= len && pos + len <= d
    ensures Pos32(pos, s, d) == ScaledPos(pos, s, d)
    ensures Len32(len, s, d) == ScaledLen(len, s, d)
  {
    hide Factor, Pos32, Len32, ScaledPos, ScaledLen;
    ProductsFit(pos, s, d);
    ProductsFit(len, s, d);
    RescaleNoWrap(pos, len, s, d);
  }

  lemma Quotient(a: int, b: int)
    requires 0 <= a && 0 < b
    ensures TruncDiv(a, b) == a / b
  {
  }

  /** The flips and the rotation, applied in place to a copy of the clipped destination. */
  method Orient(d: Rect, dstW: int, dstH: int, transforms: nat) returns (s: Rect)
    ensures Bounded(d, dstW, dstH) ==> s == Oriented(transforms, dstW, dstH, d)
  {
    s := d;
    if FlipV(transforms) {
      s := s.(y := ToInt32(dstH - ToInt32(d.height + d.y)));
    }
    if FlipH(transforms) {
      s := s.(x := ToInt32(dstW - ToInt32(d.width + d.x)));
    }
    if Rotates(transforms) {
      var tmpX := s.x;
      s := s.(x := ToInt32(dstH - ToInt32(s.y + s.height)));
      s := s.(y := tmpX);
      s := s.(width := d.height, height := d.width);
    }
    if Bounded(d, dstW, dstH) {
      hide ToInt32;
      WrapsNever();
    }
  }

  /** The edges are far enough from the ends of 32 bits; the sides may be negative. */
  predicate Bounded(d: Rect, dstW: int, dstH: int) {
    && 0 <= d.x < TWO_30 && -TWO_30 < d.x + d.width < TWO_30 && 0 < dstW < TWO_30
    && 0 <= d.y < TWO_30 && -TWO_30 < d.y + d.height < TWO_30 && 0 < dstH < TWO_30
  }

  /** The clip, brought into the coordinates of the destination and cut to it. */
  method Clip(dst: Edges, clip: Edges, dstW: int, dstH: int) returns (d: Rect)
    requires dstW == ToInt32(dst.r - dst.l) && dstH == ToInt32(dst.b - dst.t)
    ensures Moderate(dst) && Moderate(clip) ==> d == Clipped(dst, clip)
  {
    var clipX, clipY := ToInt32(clip.l - dst.l), ToInt32(clip.t - dst.t);
    var clipW, clipH := ToInt32(clip.r - clip.l), ToInt32(clip.b - clip.t);
    var l, t := Max(0, clipX), Max(0, clipY);
    var r := Min(dstW, ToInt32(clipX + clipW));
    var b := Min(dstH, ToInt32(clipY + clipH));
    d := Rect(l, t, ToInt32(r - l), ToInt32(b - t));
    if Moderate(dst) && Moderate(clip) {
      hide ToInt32;
      WrapsNever();
    }
  }

  /** With a clip that meets the destination no product wraps. */
  lemma SourceNoWrap(src: Edges, dst: Edges, clip: Edges, code: nat)
    requires InRange(src, dst, clip) && Meets(dst, clip)
    ensures SourceRect32(src, dst, clip, code) == SourceRect(src, dst, clip, code)
  {
    hide Pos32, Len32, ScaledPos, ScaledLen, ToInt32;
    var d, s := Normalised(dst), Normalised(src);
    var o := Oriented(code, d.width, d.height, Clipped(dst, clip));
    if Rotates(code) {
      PieceNoWrap(o.x, o.width, s.width, d.height);
      PieceNoWrap(o.y, o.height, s.height, d.width);
    } else {
      PieceNoWrap(o.x, o.width, s.width, d.width);
      PieceNoWrap(o.y, o.height, s.height, d.height);
    }
    RectsInside(src, dst, clip, code);
    WrapsNever();
  }

  /** The body of set_rects: local rectangles rewritten step by step. C asks only that the destination sides are not
      zero. */
  method ComputeRects(src: Edges, dst: Edges, clip: Edges, transforms: nat) returns (srcOut: Rect, dstOut: Rect)
    requires ToInt32(dst.r - dst.l) != 0 && ToInt32(dst.b - dst.t) != 0
    ensures InRange(src, dst, clip) ==>
              srcOut == SourceRect32(src, dst, clip, transforms) && dstOut == DestRect(dst, clip)
  {
    var srcW, srcH := ToInt32(src.r - src.l), ToInt32(src.b - src.t);
    var dstW, dstH := ToInt32(dst.r - dst.l), ToInt32(dst.b - dst.t);
    var d := Clip(dst, clip, dstW, dstH);
    var o := Orient(d, dstW, dstH, transforms);

    var hDim, vDim := if Rotates(transforms) then dstH else dstW, if Rotates(transforms) then dstW else dstH;
    var x, w := RescaleAxis(o.x, o.width, srcW, hDim);
    var y, h := RescaleAxis(o.y, o.height, srcH, vDim);

    srcOut := Rect(ToInt32(x + src.l), ToInt32(y + src.t), w, h);
    dstOut := Rect(ToInt32(d.x + dst.l), ToInt32(d.y + dst.t), d.width, d.height);
    hide ToInt32, Pos32, Len32, Oriented, TruncDiv;
    WrapsNever();
  }

  /** set_rects. A clip that misses the destination goes the same way as any other, with sides that are negative. */
  method SetRects(src: Edges, dst: Edges, clip: Edges, transforms: nat) returns (srcOut: Rect, dstOut: Rect)
    requires ToInt32(dst.r - dst.l) != 0 && ToInt32(dst.b - dst.t) != 0
    ensures InRange(src, dst, clip) ==>
              srcOut == SourceRect32(src, dst, clip, transforms) && dstOut == DestRect(dst, clip)
    ensures InRange(src, dst, clip) && Meets(dst, clip) ==>
              && srcOut == SourceRect(src, dst, clip, transforms) && Inside(srcOut, src)
              && Inside(dstOut, dst) && Inside(dstOut, clip)
    ensures InRange(src, dst, clip) && Meets(dst, clip) && SameSize(src, dst, transforms) ==>
              forall q: Point :: srcOut.Has(Shift(q, src)) <==> LookedFor(dst, transforms, dstOut, q)
  {
    hide ToInt32, SourceRect32, DestRect, Meets, SourceRect, Inside, SameSize, LookedFor, Shift;
    srcOut, dstOut := ComputeRects(src, dst, clip, transforms);
    if InRange(src, dst, clip) && Meets(dst, clip) {
      RectsMeet(src, dst, clip, transforms);
    }
  }

  /** What set_rects computes for a clip that meets the destination. */
  lemma RectsMeet(src: Edges, dst: Edges, clip: Edges, code: nat)
    requires InRange(src, dst, clip) && Meets(dst, clip)
    ensures var s, d := SourceRect32(src, dst, clip, code), DestRect(dst, clip);
      && s == SourceRect(src, dst, clip, code)
      && Inside(s, src) && Inside(d, dst) && Inside(d, clip)
      && (SameSize(src, dst, code) ==> forall q: Point :: s.Has(Shift(q, src)) <==> LookedFor(dst, code, d, q))
  {
    SourceNoWrap(src, dst, clip, code);
    RectsInside(src, dst, clip, code);
    DestInside(dst, clip);
    hide SourceRect32, SourceRect, DestRect, SameSize, Shift, LookedFor, Inside;
    if SameSize(src, dst, code) {
      forall q: Point
        ensures SourceRect(src, dst, clip, code).Has(Shift(q, src)) <==> LookedFor(dst, code, DestRect(dst, clip), q)
      {
        SourceIsLookedFor(src, dst, clip, code, q);
      }
    }
  }

  function Shift(p: Point, e: Edges): Point {
    Point(p.x + e.l, p.y + e.t)
  }

  /** The source is as large as the destination, once that is turned. */
  predicate SameSize(src: Edges, dst: Edges, code: nat) {
    (src.r - src.l, src.b - src.t) ==
      if Rotates(code) then (dst.b - dst.t, dst.r - dst.l) else (dst.r - dst.l, dst.b - dst.t)
  }

  /** Pixel q of the source is the one looked for at some pixel of `out`, both counted from their corners. */
  ghost predicate LookedFor(dst: Edges, code: nat, out: Rect, q: Point) {
    exists p: Point :: q == SourcePixel(code, dst.r - dst.l, dst.b - dst.t, p) && out.Has(Shift(p, dst))
  }

  lemma LookedForOriented(dst: Edges, clip: Edges, code: nat, q: Point)
    requires dst.l < dst.r && dst.t < dst.b
    ensures LookedFor(dst, code, DestRect(dst, clip), q) <==>
      Oriented(code, dst.r - dst.l, dst.b - dst.t, Clipped(dst, clip)).Has(q)
  {
    var dw, dh := dst.r - dst.l, dst.b - dst.t;
    hide Oriented, SourcePixel, Clipped;
    var p := DestPixel(code, dw, dh, q);
    SourcePixelBijective(code, dw, dh, q);
    OrientedPointwise(code, dw, dh, Clipped(dst, clip), p);
    if LookedFor(dst, code, DestRect(dst, clip), q) {
      var p': Point :| q == SourcePixel(code, dw, dh, p') && DestRect(dst, clip).Has(Shift(p', dst));
      OrientedPointwise(code, dw, dh, Clipped(dst, clip), p');
    }
    assert DestRect(dst, clip).Has(Shift(p, dst)) <==> Clipped(dst, clip).Has(p);
  }

  /** Without rescaling, the source rectangle has exactly the pixels that are looked for at some pixel of the
      destination rectangle. */
  lemma SourceIsLookedFor(src: Edges, dst: Edges, clip: Edges, code: nat, q: Point)
    requires InRange(src, dst, clip) && SameSize(src, dst, code)
    ensures SourceRect(src, dst, clip, code).Has(Shift(q, src)) <==> LookedFor(dst, code, DestRect(dst, clip), q)
  {
    LookedForOriented(dst, clip, code, q);
    NoRescaleExactly(dst.r - dst.l, dst.r - dst.l);
    NoRescaleExactly(dst.b - dst.t, dst.b - dst.t);
    hide Oriented, Clipped, LookedFor, Factor;
  }

  /** m is the corner of the pixels looked for: the least in both coordinates. */
  ghost predicate Corner(dst: Edges, code: nat, out: Rect, m: Point) {
    && LookedFor(dst, code, out, m)
    && forall q: Point :: LookedFor(dst, code, out, q) ==> m.x <= q.x && m.y <= q.y
  }

  lemma CornerOriented(dst: Edges, clip: Edges, code: nat, m: Point)
    requires dst.l < dst.r && dst.t < dst.b
    requires Corner(dst, code, DestRect(dst, clip), m)
    ensures var o := Oriented(code, dst.r - dst.l, dst.b - dst.t, Clipped(dst, clip)); o.x == m.x && o.y == m.y
  {
    hide Oriented, Clipped, LookedFor;
    var o := Oriented(code, dst.r - dst.l, dst.b - dst.t, Clipped(dst, clip));
    LookedForOriented(dst, clip, code, m);
    LookedForOriented(dst, clip, code, Point(o.x, o.y));
    assert o.Has(Point(o.x, o.y));
  }

  /** The exact position m*s/d is at most 3/2 more than the computed one, and not less. */
  predicate Placed(pos: int, m: int, s: int, d: int) {
    2 * m * s - 3 * d < 2 * d * pos <= 2 * m * s
  }

  /** The computed length is less than 1 short of the exact one w*s/d, and at most 1/2 longer. */
  predicate Sized(len: int, w: int, s: int, d: int) {
    2 * w * s - 2 * d < 2 * d * len <= 2 * w * s + d
  }

  /** With rescaling, it lies around the exactly scaled corner of those pixels, and is as long as they scale. */
  lemma SourceIsAround(src: Edges, dst: Edges, clip: Edges, code: nat, m: Point)
    requires InRange(src, dst, clip) && Meets(dst, clip)
    requires dst.r - dst.l < 0x8000 && dst.b - dst.t < 0x8000
    requires Corner(dst, code, DestRect(dst, clip), m)
    ensures var out, r, sw, sh := DestRect(dst, clip), SourceRect(src, dst, clip, code), src.r - src.l, src.b - src.t;
      var dw, dh := dst.r - dst.l, dst.b - dst.t;
      if Rotates(code) then
        && Placed(r.x - src.l, m.x, sw, dh) && Sized(r.width, out.height, sw, dh)
        && Placed(r.y - src.t, m.y, sh, dw) && Sized(r.height, out.width, sh, dw)
      else
        && Placed(r.x - src.l, m.x, sw, dw) && Sized(r.width, out.width, sw, dw)
        && Placed(r.y - src.t, m.y, sh, dh) && Sized(r.height, out.height, sh, dh)
  {
    CornerOriented(dst, clip, code, m);
    var dw, dh := dst.r - dst.l, dst.b - dst.t;
    var o := Oriented(code, dw, dh, Clipped(dst, clip));
    if Rotates(code) {
      ScaledError(o.x, o.width, src.r - src.l, dh);
      ScaledError(o.y, o.height, src.b - src.t, dw);
    } else {
      ScaledError(o.x, o.width, src.r - src.l, dw);
      ScaledError(o.y, o.height, src.b - src.t, dh);
    }
    hide Oriented, Clipped, ScaledPos, ScaledLen, Corner;
  }

  /** There is such a corner unless the destination rectangle is empty. */
  lemma CornerExists(dst: Edges, clip: Edges, code: nat) returns (m: Point)
    requires dst.l < dst.r && dst.t < dst.b
    requires 0 < DestRect(dst, clip).width && 0 < DestRect(dst, clip).height
    ensures Corner(dst, code, DestRect(dst, clip), m)
  {
    var o := Oriented(code, dst.r - dst.l, dst.b - dst.t, Clipped(dst, clip));
    m := Point(o.x, o.y);
    assert o.Has(m);
    hide Oriented, Clipped, LookedFor;
    forall q: Point
      ensures LookedFor(dst, code, DestRect(dst, clip), q) <==> o.Has(q)
    {
      LookedForOriented(dst, clip, code, q);
    }
  }

  lemma DestInside(dst: Edges, clip: Edges)
    requires Meets(dst, clip)
    ensures Inside(DestRect(dst, clip), dst) && Inside(DestRect(dst, clip), clip)
  {
  }

  // ----- check_stretch_limits

  const STRETCH_LIMIT: int := 8

  /** How the check ends. DividesByZero stands for the fault of the division. */
  datatype Check = Passed | Refused | DividesByZero

  /** What the check of one axis means. Negative sizes pass whatever the other size. */
  function AxisVerdict(from: int, to: int): Check {
    if from < 0 || to < 0 || from == to == 0 then Passed
    else if from == 0 || to == 0 then DividesByZero
    else if from < 9 * to && to < 9 * from then Passed
    else Refused
  }

  /** The vertical axis is looked at only if the horizontal one passes. */
  function CheckVerdict(src: Rect, dst: Rect, rotation: bool): Check {
    var w, h := if rotation then dst.height else dst.width, if rotation then dst.width else dst.height;
    if AxisVerdict(src.width, w) != Passed then AxisVerdict(src.width, w) else AxisVerdict(src.height, h)
  }

  /** The check of an axis divides the larger size by the smaller: that faults, or exceeds the limit, as said. */
  lemma AxisExactly(from: int, to: int)
    requires from > to
    ensures AxisVerdict(from, to) == AxisVerdict(to, from)
    ensures AxisVerdict(from, to) == DividesByZero <==> to == 0
    ensures to != 0 ==> (AxisVerdict(from, to) == Refused <==> TruncDiv(from, to) > STRETCH_LIMIT)
  {
    if 0 < to {
      Quotient(from, to);
      QuotientAbove(from, to);
    } else if to < 0 && 0 <= from {
      NegativeQuotient(from, -to);
    } else if to < 0 {
      SmallQuotient(-from, -to);
    }
  }

  lemma NegativeQuotient(a: int, b: int)
    requires 0 <= a && 0 < b
    ensures TruncDiv(a, -b) <= 0
  {
    assert a == a / b * b + a % b;
    if a / b < 0 {
      MulMono(a / b, -1, b);
    }
  }

  lemma BelowDivisor(a: int, b: int)
    requires 0 <= a < b
    ensures a / b == 0
  {
  }

  lemma NegativesDivide(a: int, b: int)
    requires 0 < a && 0 < b
    ensures TruncDiv(-a, -b) == a / b
  {
  }

  lemma SmallQuotient(a: int, b: int)
    requires 0 < a < b
    ensures TruncDiv(-a, -b) == 0
  {
    hide TruncDiv;
    NegativesDivide(a, b);
    BelowDivisor(a, b);
  }

  lemma QuotientAbove(a: int, b: int)
    requires 0 < a && 0 < b
    ensures a / b <= 8 <==> a < 9 * b
  {
    assert a == a / b * b + a % b;
    if a / b <= 8 {
      MulMono(a / b, 8, b);
    } else {
      MulMono(9, a / b, b);
    }
  }

  /** One axis of check_stretch_limits. */
  method CheckAxis(from: int, to: int) returns (c: Check)
    ensures c == AxisVerdict(from, to)
  {
    hide TruncDiv, AxisVerdict;
    if from > to {
      AxisExactly(from, to);
      if to == 0 {
        return DividesByZero;
      }
      if TruncDiv(from, to) > STRETCH_LIMIT {
        return Refused;
      }
    } else if from < to {
      AxisExactly(to, from);
      if from == 0 {
        return DividesByZero;
      }
      if TruncDiv(to, from) > STRETCH_LIMIT {
        return Refused;
      }
    }
    SameSizePasses(from, to);
    return Passed;
  }

  lemma SameSizePasses(from: int, to: int)
    ensures from == to ==> AxisVerdict(from, to) == Passed
  {
  }

  /** check_stretch_limits */
  method CheckStretchLimits(src: Rect, dst: Rect, rotation: bool) returns (c: Check)
    ensures c == CheckVerdict(src, dst, rotation)
  {
    hide AxisVerdict;
    var toWidth, toHeight := dst.width, dst.height;
    if rotation {
      toWidth, toHeight := dst.height, dst.width;
    }
    c := CheckAxis(src.width, toWidth);
    if c != Passed {
      return;
    }
    c := CheckAxis(src.height, toHeight);
  }

  // ----- copybit_set_parameter

  /** The pixel shown at p when the source is flipped and then rotated clockwise, as the HAL documents its codes. */
  function HalPixel(hal: nat, dw: int, dh: int, p: Point): Point {
    var q := if Rotates(hal) then Point(p.y, dw - 1 - p.x) else p;
    var w, h := if Rotates(hal) then dh else dw, if Rotates(hal) then dw else dh;
    Point(if FlipH(hal) then w - 1 - q.x else q.x, if FlipV(hal) then h - 1 - q.y else q.y)
  }

  /** The blit request of a copybit device keeps its transform code between calls. */
  class Request {
    var transform: nat

    /** COPYBIT_ROTATION_DEG: degrees clockwise, as the counter-clockwise code of the blitter. */
    method SetRotation(value: int) returns (ok: bool)
      modifies this
      ensures ok <==> value in {0, 90, 180, 270}
      ensures forall dw, dh, p: Point ::
        && (value == 90 ==> SourcePixel(transform, dw, dh, p) == HalPixel(4, dw, dh, p))
        && (value == 180 ==> SourcePixel(transform, dw, dh, p) == HalPixel(3, dw, dh, p))
        && (value == 270 ==> SourcePixel(transform, dw, dh, p) == HalPixel(7, dw, dh, p))
        && (value !in {90, 180, 270} ==> SourcePixel(transform, dw, dh, p) == p)
    {
      transform := 0;
      ok := true;
      if value == 0 {
      } else if value == 90 {
        transform := 7;
      } else if value == 180 {
        transform := 3;
      } else if value == 270 {
        transform := 4;
      } else {
        ok := false;
      }
    }

    /** COPYBIT_TRANSFORM: the flips, then the rotation code toggled in. */
    method SetTransform(value: nat)
      modifies this
      ensures transform == BlitCode(value)
    {
      hide FlipH, FlipV, Rotates;
      TwoBits(value);
      transform := 0;
      if FlipH(value) {
        transform := transform + 1;
      }
      if FlipV(value) {
        transform := transform + 2;
      }
      if Rotates(value) {
        transform := 7 - transform;
      }
    }
  }

  lemma TwoBits(value: nat)
    ensures value % 4 == (if FlipH(value) then 1 else 0) + (if FlipV(value) then 2 else 0)
  {
  }

  /** The flips of the value, all three bits toggled when it rotates. */
  function BlitCode(value: nat): nat {
    if Rotates(value) then 7 - value % 4 else value % 4
  }

  /** The code set for a HAL transform makes set_rects look for the documented pixel, except again when one axis is
      flipped and the image rotated. */
  lemma HalExactly(hal: nat, dw: int, dh: int)
    requires hal < 8
    ensures (forall p: Point :: SourcePixel(BlitCode(hal), dw, dh, p) == HalPixel(hal, dw, dh, p)) <==> hal !in {5, 6}
  {
    if hal in {5, 6} {
      var p, q := Point(dw, dh), Point(dw + 1, dh + 1);
      assert SourcePixel(BlitCode(hal), dw, dh, p) != HalPixel(hal, dw, dh, p)
          || SourcePixel(BlitCode(hal), dw, dh, q) != HalPixel(hal, dw, dh, q);
    }
  }
}
