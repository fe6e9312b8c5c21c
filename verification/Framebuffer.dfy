/** The framebuffer cut into slots: allocation and release by a bit mask, rotation of the screen while slots are in
    use, and posting. Sizes and addresses are 32-bit patterns. */
module Framebuffer {
  import opened Options
  import opened SlotMask

  const U32: int := 0x1_0000_0000
  const PAGE_SIZE: int := 4096

  function Wrap(x: int): nat {
    x % U32
  }

  /** Division of unsigned numbers. */
  function Over(a: nat, b: nat): nat
    requires 0 < b
  {
    a / b
  }

  /** Illegal stands for any value of the driver's that is not a quarter turn. */
  datatype Rotation = UR | CW | UD | CCW | Illegal

  /** fb_rotate_to_degree */
  function Degree(r: Rotation): nat {
    match r
    case UR => 0
    case CW => 90
    case UD => 180
    case CCW => 270
    case Illegal => 0
  }

  /** degree_to_fb_rotate */
  function FromDegree(degree: nat): Rotation {
    var d := degree % 360;
    if d == 0 then UR else if d == 270 then CCW else if d == 180 then UD else if d == 90 then CW else UR
  }

  /** What the driver told about the screen, and the copies the device shows to its users. */
  datatype Geometry = Geometry(
    xres: nat, yres: nat, xresVirtual: nat, yresVirtual: nat, bpp: nat, rotate: Rotation, lineLength: nat,
    width: nat, height: nat, stride: nat)
  {
    predicate Positive() { 0 < xres && 0 < yres && 0 < bpp && 0 < lineLength && 0 < SlotSize() }
    function SlotSize(): nat { Wrap(lineLength * yres) }
    predicate Landscape() { Degree(rotate) % 180 != 0 }
  }

  datatype Handle = Handle(baseAddr: nat, offset: nat)

  datatype Fb = Fb(
    numBuffers: nat, mask: bv32, current: int, base: nat, geom: Geometry, yoffset: nat, smemStart: nat, mapSize: nat)

  function RoundUpToPageSize(x: nat): nat {
    Wrap(x + (PAGE_SIZE - 1)) / PAGE_SIZE * PAGE_SIZE
  }

  /** The end of mapFrameBufferLocked, with what the driver reported and where the mapping went. */
  function MapFrameBuffer(g: Geometry, smemStart: nat, base: nat): Fb
    requires g.Positive()
  {
    Fb(g.yresVirtual / g.yres, 0, -1, base, g, 0, smemStart, RoundUpToPageSize(Wrap(g.lineLength * g.yresVirtual)))
  }

  datatype Allocated = NotHandled | Unavailable | NoMemory | Slot(handle: Handle, stride: nat)

  /** The rest of gralloc_alloc_framebuffer_locked, once the framebuffer is mapped. */
  function Alloc(s: Fb): (Allocated, Fb)
    requires s.geom.Positive()
  {
    if s.numBuffers == 1 then (NotHandled, s)
    else if s.numBuffers == 0 || IsFull(s.mask, s.numBuffers) then (NoMemory, s)
    else
      var index := Search(s.mask, s.numBuffers, s.current, s.numBuffers);
      var mask := if Taken(s.mask, index) then s.mask else Take(s.mask, index);
      var addr := Wrap(s.base + s.geom.SlotSize() * index);
      (Slot(Handle(addr, Wrap(addr - s.base)), Wrap(s.geom.lineLength * 8) / s.geom.bpp),
       s.(mask := mask, current := index))
  }

  /** What the driver answers when the framebuffer is mapped: an error, or its report and where mmap put the memory. */
  datatype Driver = Fails | Reports(geom: Geometry, smemStart: nat, vaddr: Option<nat>)

  /** mapFrameBufferLocked: the framebuffer is mapped once. The structure is in place before mmap is called, so a
      failure of mmap leaves it there, at address 0. */
  function MapLocked(m: Option<Fb>, d: Driver): (bool, Option<Fb>)
    requires d.Reports? ==> d.geom.Positive()
  {
    if m.Some? then (true, m)
    else if d.Fails? then (false, None)
    else match d.vaddr
      case Some(vaddr) => (true, Some(MapFrameBuffer(d.geom, d.smemStart, vaddr)))
      case None => (false, Some(MapFrameBuffer(d.geom, d.smemStart, 0)))
  }

  /** gralloc_alloc_framebuffer_locked, mapping the framebuffer on first use. */
  function AllocLocked(m: Option<Fb>, d: Driver): (Allocated, Option<Fb>)
    requires m.Some? ==> m.value.geom.Positive()
    requires d.Reports? ==> d.geom.Positive()
  {
    var (ok, m') := MapLocked(m, d);
    if !ok then (Unavailable, m')
    else
      var (r, fb) := Alloc(m'.value);
      (r, Some(fb))
  }

  /** The slot that a free releases, from the handle's address and the present size of a slot. */
  function FreeIndex(s: Fb, h: Handle): nat
    requires s.geom.Positive()
  {
    Over(Wrap(h.baseAddr - s.base), s.geom.SlotSize())
  }

  /** gralloc_free_pmem of a framebuffer handle. */
  function Free(s: Fb, h: Handle): Fb
    requires s.geom.Positive()
  {
    s.(mask := Release(s.mask, FreeIndex(s, h)))
  }

  datatype Status = Ok | Einval | Enomsg

  predicate PitchAligned(pitch: nat) {
    pitch % 8 == 0
  }

  predicate Rotatable(g: Geometry) {
    PitchAligned(Wrap(g.xres * g.bpp) / 8) && PitchAligned(Wrap(g.yres * g.bpp) / 8)
  }

  function Turn(g: Geometry): Geometry
    requires 0 < g.yres
  {
    var numBufs := g.yresVirtual / g.yres;
    g.(xres := g.yres, yres := g.xres, xresVirtual := g.yres, yresVirtual := Wrap(g.xres * numBufs),
       lineLength := Wrap(g.yres * g.bpp) / 8, width := g.height, height := g.width, stride := g.yres)
  }

  /** fb_rotate */
  function Rotate(s: Fb, degree: nat): (Status, Fb)
    requires s.geom.Positive()
  {
    if degree % 90 != 0 then (Einval, s)
    else if !Rotatable(s.geom) then (Enomsg, s)
    else
      var g := s.geom.(rotate := FromDegree(degree));
      (Ok, s.(geom := if Degree(s.geom.rotate) % 180 != degree % 180 then Turn(g) else g))
  }

  /** fb_post of a framebuffer handle, up to what it sends to the display. */
  function Post(s: Fb, h: Handle): Fb
    requires s.geom.Positive()
  {
    s.(yoffset := Over(Wrap(h.baseAddr - s.base), s.geom.lineLength))
  }

  /** The physical address that send_to_compdev posts. */
  function PostedAddress(s: Fb): nat {
    Wrap(s.smemStart + s.geom.lineLength * s.yoffset)
  }

  /** An mmap that fails is reported once; the next allocation hands out a slot at address 0. */
  lemma FailedMapForgotten(g: Geometry, smemStart: nat, d: Driver)
    requires g.Positive() && 2 <= g.yresVirtual / g.yres < WORD
    requires d.Reports? ==> d.geom.Positive()
    ensures var (r, m) := AllocLocked(None, Reports(g, smemStart, None));
      && r == Unavailable && m.Some? && m.value.geom.Positive()
      && var (r', m') := AllocLocked(m, d);
      && r'.Slot? && r'.handle.baseAddr == 0
  {
    hide Wrap, Taken, Take, IsFull;
    var fb := MapFrameBuffer(g, smemStart, 0);
    forall i: nat ensures !Taken(0, i) { NothingTaken(i); }
    FullExactly(0, fb.numBuffers);
    assert !Taken(fb.mask, Ahead(-1, fb.numBuffers, 1)) && Ahead(-1, fb.numBuffers, 1) == 0;
    assert Search(fb.mask, fb.numBuffers, -1, fb.numBuffers) == 0;
    assert Wrap(0 + g.SlotSize() * 0) == 0 by { WrapSmall(0); }
  }

  // ----- runs

  /** The handles in use, each under the slot it was allocated in. */
  datatype World = World(fb: Fb, used: map<nat, Handle>)

  datatype Op = AllocOp | FreeOp(slot: nat) | RotateOp(degree: nat) | PostOp(slot: nat)

  function Step(w: World, op: Op): World
    requires w.fb.geom.Positive()
  {
    match op
    case AllocOp =>
      var (r, fb) := Alloc(w.fb);
      if r.Slot? && 0 <= fb.current then World(fb, w.used[fb.current := r.handle]) else w.(fb := fb)
    case FreeOp(k) => if k in w.used then World(Free(w.fb, w.used[k]), w.used - {k}) else w
    case RotateOp(degree) => w.(fb := Rotate(w.fb, degree).1)
    case PostOp(k) => if k in w.used then w.(fb := Post(w.fb, w.used[k])) else w
  }

  /** What the driver reports: lines are not padded, pixels are whole bytes, and the sizes fit 32 bits. */
  predicate Sound(g: Geometry) {
    && 0 < g.xres && 0 < g.yres && 0 < g.bpp && g.bpp % 8 == 0
    && g.lineLength == g.xres * (g.bpp / 8)
    && g.xres * g.bpp < U32 && g.yres * g.bpp < U32
    && g.lineLength * g.yresVirtual + PAGE_SIZE <= U32
    && g.yres <= g.yresVirtual && g.yresVirtual / g.yres < 32
    && (g.width, g.height, g.stride) == (g.xres, g.yres, g.xres)
  }

  const PHONE := Geometry(480, 800, 480, 1600, 32, UR, 1920, 480, 800, 480)

  /** A screen of 480 x 800 with room for two is one of them. */
  lemma PhoneIsSound()
    ensures Sound(PHONE) && PHONE.yresVirtual / PHONE.yres == 2 && Rotatable(PHONE)
  {
  }

  /** The screen in the position it was reported in, or on its side. */
  predicate Turned(g0: Geometry, g: Geometry) {
    && g.bpp == g0.bpp
    && (g.xres, g.yres) == (if g.Landscape() == g0.Landscape() then (g0.xres, g0.yres) else (g0.yres, g0.xres))
    && g.lineLength == g.xres * (g.bpp / 8)
    && 0 < g.yres && 0 < g0.yres && g.yresVirtual / g.yres == g0.yresVirtual / g0.yres
    && (g.width, g.height, g.stride) == (g.xres, g.yres, g.xres)
  }

  function SlotHandle(base: nat, size: nat, k: nat): Handle {
    Handle(Wrap(base + size * k), size * k)
  }

  /** g0 is the geometry at the time the framebuffer was mapped. */
  predicate Inv(g0: Geometry, w: World)
    requires Sound(g0)
  {
    var fb := w.fb;
    && Turned(g0, fb.geom)
    && fb.numBuffers == g0.yresVirtual / g0.yres
    && fb.mapSize == RoundUpToPageSize(g0.lineLength * g0.yresVirtual)
    && -1 <= fb.current < fb.numBuffers
    && Within(fb.mask, fb.numBuffers)
    && (forall k: nat :: k < WORD ==> (Taken(fb.mask, k) <==> k in w.used))
    && (forall k <- w.used :: k < fb.numBuffers && w.used[k] == SlotHandle(fb.base, g0.lineLength * g0.yres, k))
  }

  // ----- arithmetic

  lemma WrapSmall(x: int)
    requires 0 <= x < U32
    ensures Wrap(x) == x
  {
  }

  lemma WrapBack(base: nat, o: nat)
    requires o < U32
    ensures Wrap(Wrap(base + o) - base) == o
  {
  }

  lemma MulLess(a: nat, b: nat, c: nat)
    requires b <= c
    ensures a * b <= a * c
  {
  }

  lemma MulDiv(a: nat, k: nat)
    requires 0 < a
    ensures (a * k) / a == k
  {
    assert a * ((a * k) / a - k) == -((a * k) % a);
    if (a * k) / a > k {
      MulLess(a, 1, (a * k) / a - k);
    } else if (a * k) / a < k {
      MulLess(a, 1, k - (a * k) / a);
    }
  }

  lemma DivMul(a: nat, b: nat)
    requires 0 < b
    ensures b * (a / b) <= a
  {
  }

  lemma Swap3(x: nat, y: nat, b: nat)
    ensures (x * b) * y == (y * b) * x
  {
  }

  lemma EightBytes(x: nat, bpp: nat)
    requires bpp % 8 == 0
    ensures x * bpp / 8 == x * (bpp / 8)
  {
    assert bpp == 8 * (bpp / 8);
    assert x * bpp == 8 * (x * (bpp / 8));
    MulDiv(8, x * (bpp / 8));
  }

  /** All slots together are within the memory of the virtual screen. */
  lemma SlotsFit(g0: Geometry, k: nat)
    requires Sound(g0) && k <= g0.yresVirtual / g0.yres
    ensures g0.lineLength * g0.yres * k <= g0.lineLength * g0.yresVirtual < U32
  {
    var n := g0.yresVirtual / g0.yres;
    DivMul(g0.yresVirtual, g0.yres);
    MulLess(g0.yres, k, n);
    MulLess(g0.lineLength, g0.yres * k, g0.yresVirtual);
    assert g0.lineLength * g0.yres * k == g0.lineLength * (g0.yres * k);
  }

  lemma LinePositive(g: Geometry)
    requires 0 < g.xres && 0 < g.yres && 8 <= g.bpp && g.lineLength == g.xres * (g.bpp / 8)
    ensures g.xres <= g.lineLength
    ensures 0 < g.lineLength * g.yres
  {
    MulLess(g.xres, 1, g.bpp / 8);
    MulLess(g.lineLength, 1, g.yres);
  }

  /** However the screen is turned, a slot has the size it had at first. */
  lemma SlotSizeKept(g0: Geometry, g: Geometry)
    requires Sound(g0) && Turned(g0, g)
    ensures g.lineLength * g.yres == g0.lineLength * g0.yres == g.SlotSize()
    ensures g.Positive()
  {
    Swap3(g0.xres, g0.yres, g0.bpp / 8);
    LinePositive(g0);
    LinePositive(g);
    MulLess(g0.lineLength, g0.yres, g0.yresVirtual);
    WrapSmall(g0.lineLength * g0.yres);
  }

  // ----- rotation

  lemma SameParity(degree: nat)
    requires degree % 90 == 0
    ensures Degree(FromDegree(degree)) % 180 == degree % 180
    ensures degree % 180 == 0 || degree % 180 == 90
  {
  }

  lemma ParityOfRotation(r: Rotation)
    ensures Degree(r) % 180 == 0 || Degree(r) % 180 == 90
  {
  }

  lemma MulBoth(a: nat, b: nat, c: nat, d: nat)
    requires a <= c && b <= d
    ensures a * b <= c * d
  {
    MulLess(a, b, d);
    MulLess(d, a, c);
  }

  lemma TurnedVirtualFits(g0: Geometry, x: nat, n: nat)
    requires Sound(g0) && n == g0.yresVirtual / g0.yres
    requires x == g0.xres || x == g0.yres
    ensures x * n < U32
  {
    LinePositive(g0);
    DivMul(g0.yresVirtual, g0.yres);
    if x == g0.xres {
      MulBoth(1, n, g0.yres, n);
      MulBoth(g0.xres, n, g0.lineLength, g0.yresVirtual);
    } else {
      MulBoth(1, g0.yresVirtual, g0.lineLength, g0.yresVirtual);
    }
  }

  /** The virtual height after a turn: as many screens as before. */
  lemma TurnedVirtual(g0: Geometry, x: nat, n: nat)
    requires Sound(g0) && n == g0.yresVirtual / g0.yres
    requires x == g0.xres || x == g0.yres
    ensures Wrap(x * n) == x * n && (x * n) / x == n
  {
    hide Wrap;
    TurnedVirtualFits(g0, x, n);
    WrapSmall(x * n);
    MulDiv(x, n);
  }

  lemma TurnTurns(g0: Geometry, g: Geometry, r: Rotation)
    requires Sound(g0) && Turned(g0, g)
    requires g.(rotate := r).Landscape() != g.Landscape()
    ensures Turned(g0, Turn(g.(rotate := r)))
  {
    hide Wrap, Degree;
    TurnedVirtual(g0, g.xres, g0.yresVirtual / g0.yres);
    WrapSmall(g.yres * g.bpp);
    EightBytes(g.yres, g.bpp);
  }

  lemma RotateInv(g0: Geometry, fb: Fb, degree: nat)
    requires Sound(g0) && Turned(g0, fb.geom) && fb.geom.Positive()
    ensures Turned(g0, Rotate(fb, degree).1.geom)
  {
    hide Degree, FromDegree, Rotatable, Turn;
    if degree % 90 == 0 {
      SameParity(degree);
      ParityOfRotation(fb.geom.rotate);
      var g := fb.geom.(rotate := FromDegree(degree));
      if Degree(fb.geom.rotate) % 180 != degree % 180 {
        TurnTurns(g0, fb.geom, FromDegree(degree));
      }
    }
  }

  // ----- slots

  /** The index that a free computes from the handle of slot k is k. */
  lemma OwnIndex(g0: Geometry, fb: Fb, k: nat)
    requires Sound(g0) && Turned(g0, fb.geom) && k <= g0.yresVirtual / g0.yres
    ensures fb.geom.Positive()
    ensures FreeIndex(fb, SlotHandle(fb.base, g0.lineLength * g0.yres, k)) == k
  {
    hide Wrap;
    SlotSizeKept(g0, fb.geom);
    SlotsFit(g0, k);
    WrapBack(fb.base, g0.lineLength * g0.yres * k);
    MulDiv(g0.lineLength * g0.yres, k);
  }

  /** A slot is given out exactly when one is free, and then it is the first one after the last that was given. */
  lemma AllocAnswers(g0: Geometry, w: World)
    requires Sound(g0) && Inv(g0, w) && w.fb.geom.Positive()
    requires w.fb.numBuffers != 1
    ensures var (r, fb) := Alloc(w.fb);
      && (r == NoMemory <==> forall k: nat :: k < w.fb.numBuffers ==> k in w.used)
      && (r == NoMemory ==> fb == w.fb)
      && (r != NoMemory ==>
            && r.Slot? && 0 <= fb.current < w.fb.numBuffers && fb.current !in w.used
            && fb == w.fb.(mask := Take(w.fb.mask, fb.current), current := fb.current)
            && r.handle == SlotHandle(w.fb.base, g0.lineLength * g0.yres, fb.current)
            && r.stride == w.fb.geom.xres
            && exists d: nat :: d <= w.fb.numBuffers && FreeAt(w.fb.mask, w.fb.numBuffers, w.fb.current, d, fb.current))
  {
    hide IsFull, Taken, Take, Search, FreeAt, Wrap;
    var n := w.fb.numBuffers;
    FullExactly(w.fb.mask, n);
    if k: nat :| k < n && !Taken(w.fb.mask, k) {
      var d := SearchFirstFree(w.fb.mask, n, w.fb.current, k);
      var index := Search(w.fb.mask, n, w.fb.current, n);
      SlotSizeKept(g0, w.fb.geom);
      SlotsFit(g0, index);
      WrapBack(w.fb.base, g0.lineLength * g0.yres * index);
      StrideIsWidth(g0, w.fb.geom);
    }
  }

  /** The stride handed out is the width of the screen in pixels. */
  lemma StrideIsWidth(g0: Geometry, g: Geometry)
    requires Sound(g0) && Turned(g0, g)
    ensures Wrap(g.lineLength * 8) / g.bpp == g.xres
  {
    hide Wrap;
    assert g.bpp == 8 * (g.bpp / 8);
    assert g.lineLength * 8 == g.bpp * g.xres;
    WrapSmall(g.lineLength * 8);
    MulDiv(g.bpp, g.xres);
  }

  lemma AllocInv(g0: Geometry, w: World)
    requires Sound(g0) && Inv(g0, w) && w.fb.geom.Positive()
    ensures Inv(g0, Step(w, AllocOp))
  {
    hide IsFull, Taken, Take, Search, FreeAt, Wrap, Alloc, Turned;
    if w.fb.numBuffers == 1 {
      assert Alloc(w.fb) == (NotHandled, w.fb) by { SingleBuffer(w.fb); }
    } else {
      AllocAnswers(g0, w);
      var fb := Alloc(w.fb).1;
      if Alloc(w.fb).0.Slot? {
        forall k: nat | k < WORD
          ensures Taken(fb.mask, k) <==> k == fb.current || Taken(w.fb.mask, k)
        {
          TakeTakes(w.fb.mask, fb.current, k);
        }
      }
    }
  }

  lemma SingleBuffer(s: Fb)
    requires s.geom.Positive() && s.numBuffers == 1
    ensures Alloc(s) == (NotHandled, s)
  {
  }

  lemma FreeInv(g0: Geometry, w: World, k: nat)
    requires Sound(g0) && Inv(g0, w) && w.fb.geom.Positive() && k in w.used
    ensures Inv(g0, Step(w, FreeOp(k)))
  {
    hide Taken, Release, Wrap, FreeIndex, Turned;
    OwnIndex(g0, w.fb, k);
    var mask := Release(w.fb.mask, k);
    forall j: nat | j < WORD
      ensures Taken(mask, j) <==> j != k && Taken(w.fb.mask, j)
    {
      ReleaseReleases(w.fb.mask, k, j);
    }
  }

  lemma StepInv(g0: Geometry, w: World, op: Op)
    requires Sound(g0) && Inv(g0, w)
    ensures w.fb.geom.Positive()
    ensures Inv(g0, Step(w, op))
  {
    SlotSizeKept(g0, w.fb.geom);
    match op
    case AllocOp => AllocInv(g0, w);
    case FreeOp(k) => if k in w.used { FreeInv(g0, w, k); }
    case RotateOp(degree) => RotateStep(g0, w, degree);
    case PostOp(k) =>
  }

  lemma RotateStep(g0: Geometry, w: World, degree: nat)
    requires Sound(g0) && Inv(g0, w) && w.fb.geom.Positive()
    ensures Inv(g0, Step(w, RotateOp(degree)))
  {
    hide Turned, Turn, Taken, Wrap, Degree, FromDegree, Rotatable;
    RotateInv(g0, w.fb, degree);
  }

  lemma FreshInv(g0: Geometry, smemStart: nat, base: nat)
    requires Sound(g0)
    ensures g0.Positive()
    ensures Inv(g0, World(MapFrameBuffer(g0, smemStart, base), map[]))
  {
    hide Wrap, Taken;
    SlotSizeKept(g0, g0);
    WrapSmall(g0.lineLength * g0.yresVirtual);
    forall k: nat ensures !Taken(0, k) { NothingTaken(k); }
  }

  lemma StepStays(w: World, op: Op)
    requires w.fb.geom.Positive()
    ensures Step(w, op).fb.base == w.fb.base && Step(w, op).fb.smemStart == w.fb.smemStart
  {
    hide Taken, Take, Release, Search, IsFull, Turn, Rotatable, FromDegree, Degree, Wrap;
  }

  function Run(g0: Geometry, w: World, ops: seq<Op>): (w': World)
    requires Sound(g0) && Inv(g0, w)
    ensures Inv(g0, w') && w'.fb.base == w.fb.base && w'.fb.smemStart == w.fb.smemStart
    decreases |ops|
  {
    hide Inv, Step, Sound;
    if ops == [] then w
    else
      StepInv(g0, w, ops[0]);
      StepStays(w, ops[0]);
      Run(g0, Step(w, ops[0]), ops[1..])
  }

  /** The state after a run that starts with the mapping of the framebuffer. */
  function After(g0: Geometry, smemStart: nat, base: nat, ops: seq<Op>): World
    requires Sound(g0)
  {
    FreshInv(g0, smemStart, base);
    Run(g0, World(MapFrameBuffer(g0, smemStart, base), map[]), ops)
  }

  // ----- what holds after every run

  /** The bits that are set are the slots in use; an allocation fails exactly when all are, and otherwise gives the
      first free slot after the last one given, going around, with its place in the memory and the width of the screen.
      A framebuffer with room for one screen only hands out no slots. */
  lemma SlotsAreUsers(g0: Geometry, smemStart: nat, base: nat, ops: seq<Op>)
    requires Sound(g0)
    ensures var w := After(g0, smemStart, base, ops); var n := g0.yresVirtual / g0.yres;
      && (forall k: nat :: k < WORD ==> (Taken(w.fb.mask, k) <==> k in w.used))
      && (forall k <- w.used :: k < n)
      && w.fb.geom.Positive()
      && var (r, fb) := Alloc(w.fb);
      && (r == NotHandled <==> n == 1) && (r == NotHandled ==> fb == w.fb)
      && (n != 1 ==> (r == NoMemory <==> forall k: nat :: k < n ==> k in w.used))
      && (n != 1 && r != NoMemory ==>
            && r.Slot? && 0 <= fb.current < n && fb.current !in w.used
            && r.handle == SlotHandle(base, w.fb.geom.SlotSize(), fb.current) && r.stride == w.fb.geom.xres
            && exists d: nat :: d <= n && FreeAt(w.fb.mask, n, w.fb.current, d, fb.current))
  {
    hide Wrap, Taken, IsFull, FreeAt, Run, Alloc;
    FreshInv(g0, smemStart, base);
    var w := After(g0, smemStart, base, ops);
    SlotSizeKept(g0, w.fb.geom);
    if w.fb.numBuffers == 1 {
      SingleBuffer(w.fb);
    } else {
      AllocAnswers(g0, w);
    }
  }

  /** A turn is refused for an angle that is not a quarter, or if the lines of either position would not be a multiple of
      8 bytes, and then nothing happens; otherwise the screen has that angle, and nothing else but its geometry
      changes. */
  lemma RotatesExactly(g0: Geometry, smemStart: nat, base: nat, ops: seq<Op>, degree: nat)
    requires Sound(g0)
    ensures var w := After(g0, smemStart, base, ops);
      && w.fb.geom.Positive()
      && var (status, fb) := Rotate(w.fb, degree);
      && (status == Einval <==> degree % 90 != 0)
      && (status == Enomsg <==>
            degree % 90 == 0 && (g0.xres * (g0.bpp / 8) % 8 != 0 || g0.yres * (g0.bpp / 8) % 8 != 0))
      && (status != Ok ==> fb == w.fb)
      && (status == Ok ==>
            && Degree(fb.geom.rotate) == degree % 360 && fb == w.fb.(geom := fb.geom)
            && (if fb.geom.Landscape() != w.fb.geom.Landscape() then fb.geom.xresVirtual == fb.geom.xres
                else fb.geom == w.fb.geom.(rotate := fb.geom.rotate)))
  {
    hide Wrap, Taken, Run, Turn;
    FreshInv(g0, smemStart, base);
    var w := After(g0, smemStart, base, ops);
    SlotSizeKept(g0, w.fb.geom);
    RotatableExactly(g0, w.fb.geom);
    RotateAngle(w.fb, degree);
    hide Rotatable, Degree, FromDegree;
  }

  lemma RotateAngle(fb: Fb, degree: nat)
    requires fb.geom.Positive()
    ensures var (status, fb') := Rotate(fb, degree);
      && fb' == fb.(geom := fb'.geom)
      && (status == Ok ==>
            && Degree(fb'.geom.rotate) == degree % 360
            && (if fb'.geom.Landscape() != fb.geom.Landscape() then fb'.geom.xresVirtual == fb'.geom.xres
                else fb'.geom == fb.geom.(rotate := fb'.geom.rotate)))
  {
    hide Rotatable, Wrap, FromDegree, Degree;
    if degree % 90 == 0 {
      QuarterTurn(degree);
      UprightOrNot(fb.geom.rotate);
    }
  }

  lemma QuarterTurn(degree: nat)
    requires degree % 90 == 0
    ensures Degree(FromDegree(degree)) == degree % 360
    ensures Degree(FromDegree(degree)) % 180 == degree % 180 && (degree % 180 == 0 || degree % 180 == 90)
  {
    hide FromDegree, Degree;
    var quarters := degree / 90;
    assert degree == 90 * quarters;
    Quarters(degree, degree / 360, degree % 360);
  }

  lemma Quarters(degree: nat, turns: nat, rest: nat)
    requires degree == 360 * turns + rest && rest < 360 && degree % 90 == 0
    ensures Degree(FromDegree(degree)) == rest
    ensures rest % 180 == degree % 180 && (degree % 180 == 0 || degree % 180 == 90)
  {
    assert degree % 360 == rest;
    assert rest == 0 || rest == 90 || rest == 180 || rest == 270 by {
      assert rest == 90 * (degree / 90 - 4 * turns);
    }
  }

  lemma UprightOrNot(r: Rotation)
    ensures Degree(r) % 180 == 0 || Degree(r) % 180 == 90
  {
  }

  lemma RotatableExactly(g0: Geometry, g: Geometry)
    requires Sound(g0) && Turned(g0, g)
    ensures Rotatable(g) <==> g0.xres * (g0.bpp / 8) % 8 == 0 && g0.yres * (g0.bpp / 8) % 8 == 0
  {
    hide Wrap;
    WrapSmall(g.xres * g.bpp);
    WrapSmall(g.yres * g.bpp);
    EightBytes(g.xres, g.bpp);
    EightBytes(g.yres, g.bpp);
  }

  /** The framebuffer is mapped on the first allocation, where the driver puts it, and never again. */
  lemma MapsOnce(g: Geometry, smemStart: nat, vaddr: nat, fb: Fb, d: Driver)
    requires g.Positive() && fb.geom.Positive() && (d.Reports? ==> d.geom.Positive())
    ensures AllocLocked(Some(fb), d) == (Alloc(fb).0, Some(Alloc(fb).1))
    ensures AllocLocked(None, Fails) == (Unavailable, None)
    ensures var (r, m) := AllocLocked(None, Reports(g, smemStart, Some(vaddr)));
      && m.Some? && m.value.base == vaddr && m.value.smemStart == smemStart && m.value.geom == g && m.value.yoffset == 0
      && r == Alloc(MapFrameBuffer(g, smemStart, vaddr)).0
  {
    hide Wrap, Taken, Take, IsFull, Search;
  }

  /** However the screen was turned since a slot was given out, freeing it clears its own bit and no other. */
  lemma FreesOwnSlot(g0: Geometry, smemStart: nat, base: nat, ops: seq<Op>)
    requires Sound(g0)
    ensures var w := After(g0, smemStart, base, ops);
      && w.fb.geom.Positive()
      && forall k <- w.used ::
           && FreeIndex(w.fb, w.used[k]) == k
           && (var freed := Free(w.fb, w.used[k]); freed == w.fb.(mask := freed.mask))
           && forall j: nat :: j < WORD ==> (Taken(Free(w.fb, w.used[k]).mask, j) <==> j != k && Taken(w.fb.mask, j))
  {
    hide Wrap, Taken, Run, FreeIndex, Release;
    FreshInv(g0, smemStart, base);
    var w := After(g0, smemStart, base, ops);
    SlotSizeKept(g0, w.fb.geom);
    forall k | k in w.used
      ensures FreeIndex(w.fb, w.used[k]) == k
    {
      OwnIndex(g0, w.fb, k);
    }
    forall k: nat, j: nat
      ensures Taken(Release(w.fb.mask, k), j) <==> j != k && Taken(w.fb.mask, j)
    {
      ReleaseReleases(w.fb.mask, k, j);
    }
  }

  /** The lines above slot k number k screens, in whatever position the screen is. */
  lemma LinesAbove(g0: Geometry, g: Geometry, k: nat)
    requires Sound(g0) && Turned(g0, g)
    ensures 0 < g.lineLength && Over(g0.lineLength * g0.yres * k, g.lineLength) == k * g.yres
    ensures g.lineLength * (k * g.yres) == g0.lineLength * g0.yres * k
  {
    SlotSizeKept(g0, g);
    LinePositive(g);
    assert g.lineLength * (k * g.yres) == g.lineLength * g.yres * k;
    MulDiv(g.lineLength, k * g.yres);
  }

  /** Posting a slot shows its own memory: the offset into the virtual screen is that of its slot, and the address
      posted is the start of the memory plus the offset in the handle. */
  lemma PostsOwnSlot(g0: Geometry, smemStart: nat, base: nat, ops: seq<Op>)
    requires Sound(g0)
    ensures var w := After(g0, smemStart, base, ops);
      && w.fb.geom.Positive()
      && forall k <- w.used ::
           && Post(w.fb, w.used[k]).yoffset == k * w.fb.geom.yres
           && PostedAddress(Post(w.fb, w.used[k])) == Wrap(smemStart + w.used[k].offset)
  {
    hide Wrap, Taken, Run, Over, Post, PostedAddress, Turned;
    FreshInv(g0, smemStart, base);
    var w := After(g0, smemStart, base, ops);
    SlotSizeKept(g0, w.fb.geom);
    forall k | k in w.used
      ensures Post(w.fb, w.used[k]).yoffset == k * w.fb.geom.yres
      ensures PostedAddress(Post(w.fb, w.used[k])) == Wrap(smemStart + w.used[k].offset)
    {
      PostsSlot(g0, w.fb, k);
    }
  }

  lemma {:induction false} RunLast(g0: Geometry, w: World, ops: seq<Op>, op: Op)
    requires Sound(g0) && Inv(g0, w)
    ensures Run(g0, w, ops).fb.geom.Positive()
    ensures Run(g0, w, ops + [op]) == Step(Run(g0, w, ops), op)
    decreases |ops|
  {
    hide Inv, Step, Sound;
    if ops == [] {
      assert ops + [op] == [op];
      StepInv(g0, w, op);
      assert Run(g0, Step(w, op), []) == Step(w, op);
    } else {
      assert (ops + [op])[1..] == ops[1..] + [op];
      StepInv(g0, w, ops[0]);
      RunLast(g0, Step(w, ops[0]), ops[1..], op);
    }
  }

  /** In a run, freeing a slot gives it back and leaves those of all other users. */
  lemma FreesInRun(g0: Geometry, smemStart: nat, base: nat, ops: seq<Op>, k: nat)
    requires Sound(g0)
    ensures var w, freed := After(g0, smemStart, base, ops), After(g0, smemStart, base, ops + [FreeOp(k)]);
      && freed.used == w.used - {k}
      && forall j: nat :: j < WORD ==> (Taken(freed.fb.mask, j) <==> j in w.used && j != k)
  {
    hide Wrap, Taken, Run, Free, Inv, Sound;
    FreshInv(g0, smemStart, base);
    RunLast(g0, World(MapFrameBuffer(g0, smemStart, base), map[]), ops, FreeOp(k));
    SlotsAreUsers(g0, smemStart, base, ops + [FreeOp(k)]);
  }

  /** In a run, posting a slot moves the visible part of the virtual screen to it, and nothing else. */
  lemma PostsInRun(g0: Geometry, smemStart: nat, base: nat, ops: seq<Op>, k: nat)
    requires Sound(g0)
    ensures var w, posted := After(g0, smemStart, base, ops), After(g0, smemStart, base, ops + [PostOp(k)]);
      && posted.used == w.used
      && posted.fb == if k in w.used then w.fb.(yoffset := k * w.fb.geom.yres) else w.fb
  {
    hide Wrap, Taken, Run, Post, Inv, Sound;
    FreshInv(g0, smemStart, base);
    RunLast(g0, World(MapFrameBuffer(g0, smemStart, base), map[]), ops, PostOp(k));
    PostsOwnSlot(g0, smemStart, base, ops);
    var w := After(g0, smemStart, base, ops);
    if k in w.used {
      PostMoves(w.fb, w.used[k]);
    }
  }

  lemma PostMoves(fb: Fb, h: Handle)
    requires fb.geom.Positive()
    ensures Post(fb, h) == fb.(yoffset := Post(fb, h).yoffset)
  {
  }

  lemma PostsSlot(g0: Geometry, fb: Fb, k: nat)
    requires Sound(g0) && Turned(g0, fb.geom) && fb.geom.Positive() && k <= g0.yresVirtual / g0.yres
    ensures var h := SlotHandle(fb.base, g0.lineLength * g0.yres, k);
      && Post(fb, h).yoffset == k * fb.geom.yres
      && PostedAddress(Post(fb, h)) == Wrap(fb.smemStart + h.offset)
  {
    hide Wrap, Over, Turned;
    SlotsFit(g0, k);
    WrapBack(fb.base, g0.lineLength * g0.yres * k);
    LinesAbove(g0, fb.geom, k);
  }

  /** Slots in use are disjoint byte ranges within the mapping. */
  lemma SlotsDisjoint(g0: Geometry, smemStart: nat, base: nat, ops: seq<Op>)
    requires Sound(g0)
    ensures var w := After(g0, smemStart, base, ops); var size := w.fb.geom.SlotSize();
      && (forall k <- w.used :: w.used[k].offset < w.used[k].offset + size <= w.fb.mapSize)
      && w.fb.mapSize % PAGE_SIZE == 0
      && g0.lineLength * g0.yresVirtual <= w.fb.mapSize < g0.lineLength * g0.yresVirtual + PAGE_SIZE
      && (forall j, k :: j in w.used && k in w.used && j < k ==> w.used[j].offset + size <= w.used[k].offset)
  {
    hide Wrap, Taken, Run, RoundUpToPageSize, Turned;
    FreshInv(g0, smemStart, base);
    var w := After(g0, smemStart, base, ops);
    SlotSizeKept(g0, w.fb.geom);
    RoundsUp(g0.lineLength * g0.yresVirtual);
    forall k | k in w.used
      ensures w.used[k].offset + g0.lineLength * g0.yres <= w.fb.mapSize
    {
      SlotsFit(g0, k + 1);
      NextSlot(g0.lineLength * g0.yres, k, k + 1);
    }
    forall j, k | j in w.used && k in w.used && j < k
      ensures w.used[j].offset + g0.lineLength * g0.yres <= w.used[k].offset
    {
      NextSlot(g0.lineLength * g0.yres, j, k);
    }
  }

  lemma NextSlot(size: nat, j: nat, k: nat)
    requires j < k
    ensures size * j + size <= size * k
  {
    MulLess(size, j + 1, k);
  }

  lemma RoundsUp(x: nat)
    requires x + PAGE_SIZE <= U32
    ensures x <= RoundUpToPageSize(x) < x + PAGE_SIZE && RoundUpToPageSize(x) % PAGE_SIZE == 0
  {
  }

  /** Turning keeps the number of pixels, the number of screens and the bytes of a screen, and the screen is as it was
      reported or on its side, as its rotation says. */
  lemma GeometryKept(g0: Geometry, smemStart: nat, base: nat, ops: seq<Op>)
    requires Sound(g0)
    ensures var g := After(g0, smemStart, base, ops).fb.geom;
      && g.xres * g.yres == g0.xres * g0.yres
      && 0 < g.yres && g.yresVirtual / g.yres == g0.yresVirtual / g0.yres
      && g.lineLength * g.yres == g0.lineLength * g0.yres
      && (g.xres, g.yres) == (if g.Landscape() == g0.Landscape() then (g0.xres, g0.yres) else (g0.yres, g0.xres))
      && (g.width, g.height, g.stride) == (g.xres, g.yres, g.xres)
  {
    hide Wrap, Taken, Run;
    FreshInv(g0, smemStart, base);
    SlotSizeKept(g0, After(g0, smemStart, base, ops).fb.geom);
  }

  // ----- padded lines

  /** A turn keeps the size of a slot exactly when lines are not padded. */
  lemma TurnKeepsSlotSize(g: Geometry)
    requires 0 < g.xres && 0 < g.yres && 0 < g.bpp && g.bpp % 8 == 0
    requires g.yres * g.bpp < U32 && g.lineLength * g.yres < U32 && g.yres * (g.bpp / 8) * g.xres < U32
    ensures Turn(g).SlotSize() == g.SlotSize() <==> g.lineLength == g.xres * (g.bpp / 8)
  {
    hide Wrap;
    WrapSmall(g.yres * g.bpp);
    EightBytes(g.yres, g.bpp);
    WrapSmall(g.lineLength * g.yres);
    WrapSmall(g.yres * (g.bpp / 8) * g.xres);
    Swap3(g.xres, g.yres, g.bpp / 8);
    if g.lineLength < g.xres * (g.bpp / 8) {
      MulLess(g.yres, g.lineLength + 1, g.xres * (g.bpp / 8));
    } else if g.lineLength > g.xres * (g.bpp / 8) {
      MulLess(g.yres, g.xres * (g.bpp / 8) + 1, g.lineLength);
    }
  }

  const PADDED := Geometry(480, 800, 480, 1600, 32, UR, 4096, 480, 800, 480)

  /** With padded lines, slot k given out before a turn is freed as its own after it exactly when it does not reach
      past the end of its place among the smaller slots. */
  lemma PaddedFreesExactly(fb: Fb, k: nat)
    requires var g := fb.geom; 0 < g.xres && 0 < g.yres && 0 < g.bpp && g.bpp % 8 == 0
    requires var g := fb.geom; g.yres * g.bpp < U32 && g.yres * (g.bpp / 8) * g.xres < U32
    requires var g := fb.geom; g.xres * (g.bpp / 8) <= g.lineLength && g.lineLength * g.yres * k < U32
    ensures var g := fb.geom; var size0, size1 := g.lineLength * g.yres, g.yres * (g.bpp / 8) * g.xres;
      var turned := fb.(geom := Turn(g));
      && turned.geom.Positive() && turned.geom.SlotSize() == size1
      && (FreeIndex(turned, SlotHandle(fb.base, size0, k)) == k <==> k * size0 < (k + 1) * size1)
  {
    hide Wrap;
    var g := fb.geom;
    var size0, size1 := g.lineLength * g.yres, g.yres * (g.bpp / 8) * g.xres;
    WrapSmall(g.yres * g.bpp);
    EightBytes(g.yres, g.bpp);
    WrapSmall(size1);
    ProductPositive(g.yres, g.bpp / 8);
    ProductPositive(g.yres * (g.bpp / 8), g.xres);
    WrapBack(fb.base, size0 * k);
    Swap3(g.xres, g.yres, g.bpp / 8);
    MulLess(g.yres, g.xres * (g.bpp / 8), g.lineLength);
    assert size1 <= size0;
    MulLess(k, size1, size0);
    assert size0 * k == k * size0;
    QuotientIs(k * size0, size1, k);
  }

  lemma ProductPositive(a: nat, b: nat)
    requires 0 < a && 0 < b
    ensures 0 < a * b
  {
  }

  lemma QuotientIs(n: nat, d: nat, k: nat)
    requires 0 < d && k * d <= n
    ensures Over(n, d) == k <==> n < (k + 1) * d
  {
    var q := n / d;
    assert n == q * d + n % d;
    if q < k {
      MulLess(d, q + 1, k);
    } else if k < q {
      MulLess(d, k + 1, q);
    }
  }

  /** With padded lines, slot 1 given out before a turn is freed as slot 2 after it. */
  lemma PaddedMisfrees(base: nat)
    ensures PADDED.Positive() && PADDED.lineLength != PADDED.xres * (PADDED.bpp / 8)
    ensures var s := MapFrameBuffer(PADDED, 0, base); var (status, t) := Rotate(s, 90);
      && status == Ok && t.geom.Positive()
      && FreeIndex(s, SlotHandle(base, PADDED.SlotSize(), 1)) == 1
      && FreeIndex(t, SlotHandle(base, PADDED.SlotSize(), 1)) == 2
  {
    assert PADDED.SlotSize() == 3276800;
    PaddedTurn(base);
    PaddedIndex(base);
  }

  lemma PaddedTurn(base: nat)
    ensures PADDED.Positive()
    ensures var (status, t) := Rotate(MapFrameBuffer(PADDED, 0, base), 90);
      status == Ok && t.base == base && t.geom.Positive() && t.geom.SlotSize() == 1536000
  {
  }

  lemma PaddedIndex(base: nat)
    ensures Over(Wrap(Wrap(base + 3276800 * 1) - base), 1536000) == 2
    ensures Over(Wrap(Wrap(base + 3276800 * 1) - base), 3276800) == 1
  {
    hide Wrap;
    WrapBack(base, 3276800);
  }
}
