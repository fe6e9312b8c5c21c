/** The loop of copybit_stretch over the clip region: each clip is cut to the destination buffer, turned into a pair of
    rectangles, checked, and handed to the blitter unless it is empty. */
module BlitStretch {
  import opened BlitRects

  predicate Has(e: Edges, p: Point) {
    e.l <= p.x < e.r && e.t <= p.y < e.b
  }

  /** intersect */
  function Intersect(a: Edges, b: Edges): (r: Edges)
    ensures forall p: Point :: Has(r, p) <==> Has(a, p) && Has(b, p)
    ensures Moderate(a) && Moderate(b) ==> Moderate(r)
  {
    Edges(Max(a.l, b.l), Max(a.t, b.t), Min(a.r, b.r), Min(a.b, b.b))
  }

  datatype Blit = Blit(src: Rect, dst: Rect)

  predicate Empty(b: Blit) {
    b.dst.width == 0 || b.dst.height == 0 || b.src.width == 0 || b.src.height == 0
  }

  /** What set_rects makes of a clip, in the arithmetic of the code. */
  function BlitOf(src: Edges, dst: Edges, clip: Edges, code: nat): Blit
    requires dst.l < dst.r && dst.t < dst.b
  {
    Blit(SourceRect32(src, dst, clip, code), DestRect(dst, clip))
  }

  function Verdict(b: Blit, code: nat): Check {
    CheckVerdict(b.src, b.dst, Rotates(code))
  }

  predicate Submitted(b: Blit, code: nat) {
    Verdict(b, code) == Passed && !Empty(b)
  }

  // ----- one axis of a clip, before anything is computed

  /** What the check will say of a piece of length len of a destination axis of length d, with a source axis of length
      s; the length is negative where the clip misses the destination. */
  function PieceVerdict(len: int, s: int, d: int): Check
    requires 0 < d
  {
    if len <= 0 then Passed
    else if len * Factor(s, d) < 0x8000 then DividesByZero
    else AxisVerdict(ScaledLen(len, s, d), len)
  }

  /** The rescaled length of a piece that misses comes to zero; only where the axes have different lengths. */
  predicate Vanishes(len: int, s: int, d: int)
    requires 0 < d
  {
    s != d && (len * Factor(s, d) + 0x8000) % TWO_32 < 0x1_0000
  }

  /** Neither piece nor source is empty, and the check passes. */
  predicate PieceGoes(len: int, s: int, d: int)
    requires 0 < d
  {
    if len < 0 then !Vanishes(len, s, d) else len != 0 && PieceVerdict(len, s, d) == Passed
  }

  /** A piece of the destination has a source of no length exactly when its product rounds to zero. */
  lemma ScaledToZero(len: int, s: int, d: int)
    requires 0 <= len <= d && 0 <= s < 0x8000 && 0 < d
    ensures 0 <= ScaledLen(len, s, d)
    ensures ScaledLen(len, s, d) == 0 <==> len * Factor(s, d) < 0x8000
  {
    ProductsFit(len, s, d);
    if Factor(s, d) == 0x1_0000 && 0 < len {
      MulMono(1, len, 0x1_0000);
    }
  }

  lemma PieceExactly(len: int, s: int, d: int)
    requires len <= d && 0 <= s < 0x8000 && 0 < d
    ensures AxisVerdict(Len32(len, s, d), len) == PieceVerdict(len, s, d)
    ensures 0 <= len && PieceVerdict(len, s, d) == Passed ==> (Len32(len, s, d) == 0 <==> len == 0)
  {
    hide Len32, ScaledLen, Factor;
    if 0 <= len {
      PieceNoWrap(0, len, s, d);
      ScaledToZero(len, s, d);
    }
  }

  lemma WrappedToZero(n: int)
    ensures ToInt32(ToInt32(n) + 0x8000) / 0x1_0000 == 0 <==> (n + 0x8000) % TWO_32 < 0x1_0000
  {
    var q := (n + TWO_31) / TWO_32;
    assert ToInt32(n) == n - q * TWO_32;
    SameWrapped(ToInt32(n) + 0x8000, n + 0x8000, q);
  }

  lemma VanishesExactly(len: int, s: int, d: int)
    requires len < 0 && 0 <= s < 0x8000 && 0 < d
    ensures Len32(len, s, d) == 0 <==> Vanishes(len, s, d)
  {
    NoRescaleExactly(s, d);
    hide Factor, ToInt32;
    WrappedToZero(len * Factor(s, d));
  }

  /** As long as the product fits 32 bits, that is when it is no more than a half. */
  lemma VanishesMeans(len: int, s: int, d: int)
    requires len < 0 && 0 <= s < 0x8000 && 0 < d && -TWO_31 <= len * Factor(s, d)
    ensures Vanishes(len, s, d) <==> -len * Factor(s, d) <= 0x8000
  {
    NoRescaleExactly(s, d);
    FactorBounds(s, d);
    MulMono(len, -1, Factor(s, d));
    assert -len * Factor(s, d) == -(len * Factor(s, d));
    hide Factor;
    var n := len * Factor(s, d) + 0x8000;
    if n < 0 {
      assert n % TWO_32 == n + TWO_32;
    }
  }

  // ----- the check of a clip

  /** The sides of the source that go with the width and the height of the destination. */
  function SourceSides(src: Edges, code: nat): (int, int) {
    if Rotates(code) then (src.b - src.t, src.r - src.l) else (src.r - src.l, src.b - src.t)
  }

  lemma SourceLengths(src: Edges, dst: Edges, clip: Edges, code: nat)
    requires dst.l < dst.r && dst.t < dst.b
    ensures var b, c, (sw, sh) := BlitOf(src, dst, clip, code), Clipped(dst, clip), SourceSides(src, code);
      var x, y := Len32(c.width, sw, dst.r - dst.l), Len32(c.height, sh, dst.b - dst.t);
      && (b.dst.width, b.dst.height) == (c.width, c.height)
      && (b.src.width, b.src.height) == if Rotates(code) then (y, x) else (x, y)
  {
    hide Len32, Pos32, ToInt32;
  }

  /** What the whole check says of any clip, from the lengths of its pieces: the axis compared with the width of the
      source comes first, and the other is looked at only if that one passes. */
  lemma CheckExactly(src: Edges, dst: Edges, clip: Edges, code: nat)
    requires InRange(src, dst, clip)
    ensures var c, (sw, sh) := Clipped(dst, clip), SourceSides(src, code);
      var x, y := PieceVerdict(c.width, sw, dst.r - dst.l), PieceVerdict(c.height, sh, dst.b - dst.t);
      var first, second := if Rotates(code) then y else x, if Rotates(code) then x else y;
      Verdict(BlitOf(src, dst, clip, code), code) == if first != Passed then first else second
  {
    hide BlitOf, AxisVerdict, PieceVerdict, Len32, Rotates;
    SourceLengths(src, dst, clip, code);
    var c := Clipped(dst, clip);
    var (sw, sh) := SourceSides(src, code);
    PieceExactly(c.width, sw, dst.r - dst.l);
    PieceExactly(c.height, sh, dst.b - dst.t);
  }

  /** A piece so thin that its source rounds to nothing. */
  predicate Thin(len: int, s: int, d: int)
    requires 0 < d
  {
    0 < len && len * Factor(s, d) < 0x8000
  }

  /** The check divides by zero exactly when the first axis has a thin piece, or passes and the second has one. */
  lemma FaultsExactly(src: Edges, dst: Edges, clip: Edges, code: nat)
    requires InRange(src, dst, clip)
    ensures var c, (sw, sh) := Clipped(dst, clip), SourceSides(src, code);
      var dw, dh := dst.r - dst.l, dst.b - dst.t;
      Verdict(BlitOf(src, dst, clip, code), code) == DividesByZero <==>
        if Rotates(code) then Thin(c.height, sh, dh) || (PieceVerdict(c.height, sh, dh) == Passed && Thin(c.width, sw, dw))
        else Thin(c.width, sw, dw) || (PieceVerdict(c.width, sw, dw) == Passed && Thin(c.height, sh, dh))
  {
    hide BlitOf, Verdict, Rotates, AxisVerdict, ScaledLen, Factor;
    CheckExactly(src, dst, clip, code);
    var c := Clipped(dst, clip);
    var (sw, sh) := SourceSides(src, code);
    ThinExactly(c.width, sw, dst.r - dst.l);
    ThinExactly(c.height, sh, dst.b - dst.t);
  }

  lemma ThinExactly(len: int, s: int, d: int)
    requires len <= d && 0 <= s < 0x8000 && 0 < d
    ensures PieceVerdict(len, s, d) == DividesByZero <==> Thin(len, s, d)
  {
    hide Factor, ScaledLen;
    if 0 < len {
      ScaledToZero(len, s, d);
    }
  }

  /** A request is made for a clip, whether it meets the destination or misses it, exactly when both its pieces go. */
  lemma SubmittedExactly(src: Edges, dst: Edges, clip: Edges, code: nat)
    requires InRange(src, dst, clip)
    ensures var c, (sw, sh) := Clipped(dst, clip), SourceSides(src, code);
      Submitted(BlitOf(src, dst, clip, code), code) <==>
        PieceGoes(c.width, sw, dst.r - dst.l) && PieceGoes(c.height, sh, dst.b - dst.t)
  {
    hide BlitOf, Verdict, AxisVerdict, PieceVerdict, Len32, Vanishes, Rotates;
    CheckExactly(src, dst, clip, code);
    SourceLengths(src, dst, clip, code);
    var c := Clipped(dst, clip);
    var (sw, sh) := SourceSides(src, code);
    GoesExactly(c.width, sw, dst.r - dst.l);
    GoesExactly(c.height, sh, dst.b - dst.t);
  }

  lemma GoesExactly(len: int, s: int, d: int)
    requires len <= d && 0 <= s < 0x8000 && 0 < d
    ensures PieceGoes(len, s, d) <==> PieceVerdict(len, s, d) == Passed && len != 0 && Len32(len, s, d) != 0
  {
    hide AxisVerdict, Len32, Vanishes;
    if len < 0 {
      VanishesExactly(len, s, d);
    } else {
      PieceExactly(len, s, d);
    }
  }

  // ----- the loop

  /** The destination and the source are as set_rects asks, and the clips are moderate. */
  predicate Workable(src: Edges, dst: Edges, bounds: Edges, clips: seq<Edges>) {
    && Moderate(bounds) && (forall c <- clips :: Moderate(c))
    && InRange(src, dst, bounds)
  }

  function ClipBlit(src: Edges, dst: Edges, bounds: Edges, clip: Edges, code: nat): Blit
    requires dst.l < dst.r && dst.t < dst.b
  {
    BlitOf(src, dst, Intersect(bounds, clip), code)
  }

  /** The requests for the clips, in order. */
  function Requests(src: Edges, dst: Edges, bounds: Edges, clips: seq<Edges>, code: nat): seq<Blit>
    requires dst.l < dst.r && dst.t < dst.b
  {
    if clips == [] then []
    else
      var n := |clips| - 1;
      var b := ClipBlit(src, dst, bounds, clips[n], code);
      Requests(src, dst, bounds, clips[..n], code) + if Empty(b) then [] else [b]
  }

  /** Clip i is the first that does not pass the check. */
  predicate StopsAt(src: Edges, dst: Edges, bounds: Edges, clips: seq<Edges>, code: nat, i: int)
    requires dst.l < dst.r && dst.t < dst.b
  {
    && 0 <= i < |clips| && Verdict(ClipBlit(src, dst, bounds, clips[i], code), code) != Passed
    && forall j :: 0 <= j < i ==> Verdict(ClipBlit(src, dst, bounds, clips[j], code), code) == Passed
  }

  /** There is at most one such clip. */
  lemma StopsOnce(src: Edges, dst: Edges, bounds: Edges, clips: seq<Edges>, code: nat, i: int, k: int)
    requires dst.l < dst.r && dst.t < dst.b
    requires StopsAt(src, dst, bounds, clips, code, i) && StopsAt(src, dst, bounds, clips, code, k)
    ensures i == k
  {
    hide Verdict, ClipBlit;
  }

  /** The loop of copybit_stretch, with a blitter that accepts every request. It goes through exactly when every clip
      passes the check, and has then made the requests for all of them; otherwise it ends at the first that does not,
      refused or with a division by zero, with the requests for those before it. */
  method Stretch(src: Edges, dst: Edges, bounds: Edges, clips: seq<Edges>, code: nat)
    returns (status: Check, blits: seq<Blit>)
    requires Workable(src, dst, bounds, clips)
    ensures status == Passed <==> forall c <- clips :: Verdict(ClipBlit(src, dst, bounds, c, code), code) == Passed
    ensures status == Passed ==> blits == Requests(src, dst, bounds, clips, code)
    ensures status != Passed ==> exists i ::
      && StopsAt(src, dst, bounds, clips, code, i)
      && status == Verdict(ClipBlit(src, dst, bounds, clips[i], code), code)
      && blits == Requests(src, dst, bounds, clips[..i], code)
  {
    hide Verdict, BlitOf, Intersect;
    blits := [];
    var i := 0;
    while i < |clips|
      invariant 0 <= i <= |clips|
      invariant forall j :: 0 <= j < i ==> Verdict(ClipBlit(src, dst, bounds, clips[j], code), code) == Passed
      invariant blits == Requests(src, dst, bounds, clips[..i], code)
    {
      assert clips[..i + 1][..i] == clips[..i];
      var b;
      status, b := StretchClip(src, dst, bounds, clips[i], code);
      if status != Passed {
        assert StopsAt(src, dst, bounds, clips, code, i);
        return;
      }
      if !Empty(b) {
        blits := blits + [b];
      }
      i := i + 1;
    }
    assert clips[..i] == clips;
    status := Passed;
  }

  /** One turn of the loop: the rectangles for one clip, and what the check says of them. */
  method StretchClip(src: Edges, dst: Edges, bounds: Edges, region: Edges, code: nat) returns (status: Check, b: Blit)
    requires InRange(src, dst, bounds) && Moderate(region)
    ensures b == ClipBlit(src, dst, bounds, region, code)
    ensures status == Verdict(b, code)
  {
    hide SourceRect32, DestRect, CheckVerdict;
    WrapsNever();
    var s, d := SetRects(src, dst, Intersect(bounds, region), code);
    b := Blit(s, d);
    status := CheckStretchLimits(s, d, Rotates(code));
  }

  // ----- what the requests paint

  ghost predicate Painted(blits: seq<Blit>, p: Point) {
    exists i :: 0 <= i < |blits| && blits[i].dst.Has(p)
  }

  ghost predicate InClips(clips: seq<Edges>, p: Point) {
    exists i :: 0 <= i < |clips| && Has(clips[i], p)
  }

  lemma PaintedMore(blits: seq<Blit>, b: Blit, p: Point)
    ensures Painted(blits + [b], p) <==> Painted(blits, p) || b.dst.Has(p)
  {
    var more := blits + [b];
    if Painted(blits, p) {
      var i :| 0 <= i < |blits| && blits[i].dst.Has(p);
      assert more[i].dst.Has(p);
    }
    assert more[|blits|] == b;
  }

  lemma InClipsMore(clips: seq<Edges>, clip: Edges, p: Point)
    ensures InClips(clips + [clip], p) <==> InClips(clips, p) || Has(clip, p)
  {
    var more := clips + [clip];
    if InClips(clips, p) {
      var i :| 0 <= i < |clips| && Has(clips[i], p);
      assert Has(more[i], p);
    }
    assert more[|clips|] == clip;
  }

  /** A clip that passes and is left out as empty has no pixels to paint. */
  lemma EmptyPaintsNothing(src: Edges, dst: Edges, clip: Edges, code: nat, p: Point)
    requires InRange(src, dst, clip)
    requires var b := BlitOf(src, dst, clip, code); Verdict(b, code) == Passed && Empty(b)
    ensures !DestRect(dst, clip).Has(p)
  {
    hide BlitOf, AxisVerdict, PieceVerdict, Len32, Rotates;
    CheckExactly(src, dst, clip, code);
    SourceLengths(src, dst, clip, code);
    var c := Clipped(dst, clip);
    var (sw, sh) := SourceSides(src, code);
    PieceExactly(c.width, sw, dst.r - dst.l);
    PieceExactly(c.height, sh, dst.b - dst.t);
  }

  lemma ClipPaints(src: Edges, dst: Edges, bounds: Edges, clip: Edges, code: nat, p: Point)
    requires InRange(src, dst, bounds) && Moderate(clip)
    requires Verdict(ClipBlit(src, dst, bounds, clip, code), code) == Passed
    ensures var b := ClipBlit(src, dst, bounds, clip, code);
      && (b.dst.Has(p) <==> Has(clip, p) && Has(dst, p) && Has(bounds, p))
      && (Empty(b) ==> !b.dst.Has(p))
  {
    hide Verdict, SourceRect32;
    DestPointwise(dst, Intersect(bounds, clip), p);
    if Empty(ClipBlit(src, dst, bounds, clip, code)) {
      EmptyPaintsNothing(src, dst, Intersect(bounds, clip), code, p);
    }
  }

  /** The requests for clips that pass paint exactly the pixels of the destination that lie in the buffer and in some
      clip, whether or not every clip meets the destination. */
  lemma {:induction false} RequestsPaint(src: Edges, dst: Edges, bounds: Edges, clips: seq<Edges>, code: nat, p: Point)
    requires Workable(src, dst, bounds, clips)
    requires forall c <- clips :: Verdict(ClipBlit(src, dst, bounds, c, code), code) == Passed
    ensures Painted(Requests(src, dst, bounds, clips, code), p) <==> InClips(clips, p) && Has(dst, p) && Has(bounds, p)
    decreases |clips|
  {
    hide Verdict, ClipBlit, Painted, InClips, Has;
    if clips == [] {
      assert !Painted([], p) && !InClips([], p) by { NothingPainted(p); }
    } else {
      var n := |clips| - 1;
      var b := ClipBlit(src, dst, bounds, clips[n], code);
      assert clips == clips[..n] + [clips[n]];
      RequestsPaint(src, dst, bounds, clips[..n], code, p);
      ClipPaints(src, dst, bounds, clips[n], code, p);
      var front := Requests(src, dst, bounds, clips[..n], code);
      assert Requests(src, dst, bounds, clips, code) == if Empty(b) then front else front + [b];
      PaintedMore(front, b, p);
      InClipsMore(clips[..n], clips[n], p);
    }
  }

  lemma NothingPainted(p: Point)
    ensures !Painted([], p) && !InClips([], p)
  {
  }

  /** A request that reads inside the source, writes inside the destination and the buffer, is not empty, and is
      within the limits. */
  predicate Fine(b: Blit, src: Edges, dst: Edges, bounds: Edges, code: nat) {
    && 0 < b.dst.width && 0 < b.dst.height && 0 < b.src.width && 0 < b.src.height
    && Inside(b.src, src) && Inside(b.dst, dst) && Inside(b.dst, bounds)
    && var w := if Rotates(code) then b.dst.height else b.dst.width;
       var h := if Rotates(code) then b.dst.width else b.dst.height;
       b.src.width < 9 * w && w < 9 * b.src.width && b.src.height < 9 * h && h < 9 * b.src.height
  }

  /** A request for a clip that meets the destination is a fine one; a request for any other has a negative side. */
  lemma RequestFine(src: Edges, dst: Edges, bounds: Edges, clip: Edges, code: nat)
    requires InRange(src, dst, bounds) && Moderate(clip)
    ensures var b := ClipBlit(src, dst, bounds, clip, code);
      Submitted(b, code) ==>
        if Meets(dst, Intersect(bounds, clip)) then Fine(b, src, dst, bounds, code)
        else b.dst.width < 0 || b.dst.height < 0
  {
    var both := Intersect(bounds, clip);
    if Meets(dst, both) {
      SourceNoWrap(src, dst, both, code);
      RectsInside(src, dst, both, code);
      DestInside(dst, both);
      hide SourceRect32, SourceRect, DestRect;
      InsideSmaller(DestRect(dst, both), both, bounds);
    }
  }

  lemma InsideSmaller(r: Rect, e: Edges, f: Edges)
    requires Inside(r, e) && f.l <= e.l && e.r <= f.r && f.t <= e.t && e.b <= f.b
    ensures Inside(r, f)
  {
  }

  // ----- a clip that misses the destination, and one that is too thin

  const SQUARE := Edges(0, 0, 10, 10)
  const ASIDE := Edges(20, 0, 30, 10)

  /** A clip beside the destination passes the check and is not taken for empty: its request has a negative width. */
  lemma MissNotIgnored()
    ensures InRange(SQUARE, SQUARE, ASIDE) && !Meets(SQUARE, ASIDE)
    ensures var b := BlitOf(SQUARE, SQUARE, ASIDE, 0); Submitted(b, 0) && b.dst.width == -10
  {
    hide BlitOf, Submitted, PieceGoes, Len32, Clipped, SourceSides, InRange, Meets, Rotates;
    MissPieces();
    MissGoes();
    SubmittedExactly(SQUARE, SQUARE, ASIDE, 0);
    SourceLengths(SQUARE, SQUARE, ASIDE, 0);
  }

  lemma MissPieces()
    ensures InRange(SQUARE, SQUARE, ASIDE) && !Meets(SQUARE, ASIDE)
    ensures Clipped(SQUARE, ASIDE) == Rect(20, 0, -10, 10) && SourceSides(SQUARE, 0) == (10, 10)
  {
  }

  lemma MissGoes()
    ensures PieceGoes(-10, 10, 10) && PieceGoes(10, 10, 10)
  {
    NoRescaleExactly(10, 10);
  }

  const NARROW := Edges(0, 0, 1, 10)
  const WIDE := Edges(0, 0, 3, 10)

  /** One column of a blit from a source one pixel wide to a destination three pixels wide: its source has no width,
      and the check divides the width of the destination by it. */
  lemma ThinFaults()
    ensures InRange(NARROW, WIDE, NARROW) && Meets(WIDE, NARROW)
    ensures var b := BlitOf(NARROW, WIDE, NARROW, 0);
      b.src.width == 0 && b.dst.width == 1 && Verdict(b, 0) == DividesByZero
  {
    hide BlitOf, Verdict, Thin, PieceVerdict, Len32, Clipped, SourceSides, InRange, Meets, Rotates;
    ThinPieces();
    ThinColumn();
    FaultsExactly(NARROW, WIDE, NARROW, 0);
    SourceLengths(NARROW, WIDE, NARROW, 0);
  }

  lemma ThinPieces()
    ensures InRange(NARROW, WIDE, NARROW) && Meets(WIDE, NARROW)
    ensures Clipped(WIDE, NARROW) == Rect(0, 0, 1, 10) && SourceSides(NARROW, 0) == (1, 10) && !Rotates(0)
  {
  }

  lemma ThinColumn()
    ensures Thin(1, 1, 3) && Len32(1, 1, 3) == 0
  {
  }
}
