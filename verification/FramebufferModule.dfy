/** The module structure of the framebuffer, updated in place; each method is proved to be the operation of
    Framebuffer. */
module FramebufferModule {
  import opened Options
  import opened SlotMask
  import opened Framebuffer

  class Module {
    /** module->framebuffer is not null. */
    var mapped: bool
    var numBuffers: nat
    var bufferMask: bv32
    var currentBufferIndex: int
    var base: nat
    var xres: nat
    var yres: nat
    var xresVirtual: nat
    var yresVirtual: nat
    var bitsPerPixel: nat
    var rotate: Rotation
    var lineLength: nat
    var yoffset: nat
    var smemStart: nat
    var mapSize: nat
    var width: nat
    var height: nat
    var stride: nat

    function Geom(): Geometry
      reads this
    {
      Geometry(xres, yres, xresVirtual, yresVirtual, bitsPerPixel, rotate, lineLength, width, height, stride)
    }

    function View(): Fb
      reads this
    {
      Fb(numBuffers, bufferMask, currentBufferIndex, base, Geom(), yoffset, smemStart, mapSize)
    }

    /** None until the framebuffer is mapped. */
    function Whole(): Option<Fb>
      reads this
    {
      if mapped then Some(View()) else None
    }

    predicate Valid()
      reads this
    {
      mapped ==> Geom().Positive()
    }

    /** The module as it is linked in. */
    constructor ()
      ensures Valid() && Whole() == None
    {
      mapped := false;
      xres, yres, xresVirtual, yresVirtual, bitsPerPixel, rotate, lineLength := 0, 0, 0, 0, 0, UR, 0;
      width, height, stride := 0, 0, 0;
      yoffset, smemStart, mapSize := 0, 0, 0;
      numBuffers, bufferMask, currentBufferIndex, base := 0, 0, 0, 0;
    }

    method SetGeometry(g: Geometry)
      modifies `xres, `yres, `xresVirtual, `yresVirtual, `bitsPerPixel, `rotate, `lineLength, `width, `height, `stride
      ensures Geom() == g
    {
      xres, yres, xresVirtual, yresVirtual := g.xres, g.yres, g.xresVirtual, g.yresVirtual;
      bitsPerPixel, rotate, lineLength := g.bpp, g.rotate, g.lineLength;
      width, height, stride := g.width, g.height, g.stride;
    }

    /** The end of mapFrameBufferLocked: the structure, before mmap is called. */
    method SetUp(g: Geometry, start: nat)
      requires g.Positive()
      modifies this
      ensures mapped && View() == MapFrameBuffer(g, start, 0)
    {
      hide Wrap, RoundUpToPageSize, Geom;
      yoffset, smemStart := 0, start;
      mapSize := RoundUpToPageSize(Wrap(g.lineLength * g.yresVirtual));
      mapped, base := true, 0;
      numBuffers := g.yresVirtual / g.yres;
      bufferMask := 0;
      currentBufferIndex := -1;
      SetGeometry(g);
    }

    /** mapFrameBufferLocked */
    method MapFrameBufferLocked(d: Driver) returns (ok: bool)
      requires Valid() && (d.Reports? ==> d.geom.Positive())
      modifies this
      ensures Valid() && (ok, Whole()) == MapLocked(old(Whole()), d)
    {
      hide Wrap, RoundUpToPageSize;
      if mapped {
        return true;
      }
      if d.Fails? {
        return false;
      }
      SetUp(d.geom, d.smemStart);
      if d.vaddr.None? {
        return false;
      }
      base := d.vaddr.value;
      return true;
    }

    /** The loop that looks for a free slot. */
    method FindSlot()
      requires 0 < numBuffers
      modifies `currentBufferIndex, `bufferMask
      ensures currentBufferIndex == Search(old(bufferMask), numBuffers, old(currentBufferIndex), numBuffers)
      ensures currentBufferIndex >= 0
      ensures bufferMask ==
        if Taken(old(bufferMask), currentBufferIndex) then old(bufferMask) else Take(old(bufferMask), currentBufferIndex)
    {
      hide Taken, Take;
      ghost var mask := bufferMask;
      for i := 0 to numBuffers
        invariant bufferMask == mask
        invariant i == 0 || (currentBufferIndex >= 0 && Taken(mask, currentBufferIndex))
        invariant Search(mask, numBuffers, old(currentBufferIndex), numBuffers)
               == Search(mask, numBuffers, currentBufferIndex, numBuffers - i)
      {
        currentBufferIndex := Ahead(currentBufferIndex, numBuffers, 1);
        if !Taken(bufferMask, currentBufferIndex) {
          bufferMask := Take(bufferMask, currentBufferIndex);
          return;
        }
      }
    }

    /** gralloc_alloc_framebuffer_locked */
    method AllocFramebuffer(d: Driver) returns (r: Allocated)
      requires Valid() && (d.Reports? ==> d.geom.Positive())
      modifies this
      ensures (r, Whole()) == AllocLocked(old(Whole()), d)
    {
      hide Alloc, MapLocked;
      if !mapped {
        var ok := MapFrameBufferLocked(d);
        if !ok {
          return Unavailable;
        }
      } else {
        AlreadyMapped(View(), d);
      }
      MappedAfter(old(Whole()), d);
      r := AllocSlot();
    }

    lemma AlreadyMapped(fb: Fb, d: Driver)
      requires d.Reports? ==> d.geom.Positive()
      ensures MapLocked(Some(fb), d) == (true, Some(fb))
    {
    }

    lemma MappedAfter(m: Option<Fb>, d: Driver)
      requires d.Reports? ==> d.geom.Positive()
      ensures MapLocked(m, d).0 ==> MapLocked(m, d).1.Some?
    {
    }

    /** The rest of it, once the framebuffer is mapped. */
    method AllocSlot() returns (r: Allocated)
      requires Geom().Positive()
      modifies `currentBufferIndex, `bufferMask
      ensures (r, View()) == Alloc(old(View()))
    {
      var bufferSize := Wrap(lineLength * yres);
      if numBuffers == 1 {
        return NotHandled;
      }
      if numBuffers == 0 || IsFull(bufferMask, numBuffers) {
        return NoMemory;
      }
      FindSlot();
      var vaddr := Wrap(base + bufferSize * currentBufferIndex);
      return Slot(Handle(vaddr, Wrap(vaddr - base)), Wrap(lineLength * 8) / bitsPerPixel);
    }

    /** gralloc_free_pmem of a framebuffer handle. */
    method FreeFramebuffer(hnd: Handle)
      requires Geom().Positive()
      modifies `bufferMask
      ensures View() == Free(old(View()), hnd)
    {
      var bufferSize := Wrap(lineLength * yres);
      var index := Over(Wrap(hnd.baseAddr - base), bufferSize);
      bufferMask := Release(bufferMask, index);
    }

    /** The part of fb_rotate that puts the screen on its side. */
    method SwitchWidthHeight()
      requires 0 < yres
      modifies `xres, `yres, `xresVirtual, `yresVirtual, `lineLength, `width, `height, `stride
      ensures Geom() == Turn(old(Geom()))
    {
      hide Wrap;
      var numBufs := yresVirtual / yres;
      xres, yres := yres, xres;
      xresVirtual := xres;
      yresVirtual := Wrap(yres * numBufs);
      lineLength := Wrap(xres * bitsPerPixel) / 8;
      width, height := height, width;
      stride := xres;
    }

    /** fb_rotate */
    method FbRotate(degree: nat) returns (status: Status)
      requires Geom().Positive()
      modifies this
      ensures mapped == old(mapped) && (status, View()) == Rotate(old(View()), degree)
    {
      hide Wrap, Turn, Degree, FromDegree;
      if degree % 90 != 0 {
        return Einval;
      }
      if !PitchAligned(Wrap(xres * bitsPerPixel) / 8) || !PitchAligned(Wrap(yres * bitsPerPixel) / 8) {
        return Enomsg;
      }
      var oldDegree := Degree(rotate);
      rotate := FromDegree(degree);
      if oldDegree % 180 != degree % 180 {
        SwitchWidthHeight();
      }
      return Ok;
    }

    /** fb_post of a framebuffer handle, with the address that send_to_compdev posts. */
    method FbPost(hnd: Handle) returns (addr: nat)
      requires Geom().Positive()
      modifies `yoffset
      ensures View() == Post(old(View()), hnd)
      ensures addr == PostedAddress(View())
    {
      var offset := Wrap(hnd.baseAddr - base);
      yoffset := Over(offset, lineLength);
      return Wrap(smemStart + lineLength * yoffset);
    }
  
    /** One operation by the users of the handles given out so far. */
    method Perform(used: map<nat, Handle>, op: Op) returns (used': map<nat, Handle>)
      requires Geom().Positive()
      modifies this
      ensures mapped == old(mapped) && World(View(), used') == Step(World(old(View()), used), op)
    {
      hide Alloc, Free, Rotate, Post;
      used' := used;
      match op
      case AllocOp =>
        var r := AllocSlot();
        if r.Slot? && 0 <= currentBufferIndex {
          used' := used[currentBufferIndex := r.handle];
        }
      case FreeOp(k) =>
        if k in used {
          FreeFramebuffer(used[k]);
          used' := used - {k};
        }
      case RotateOp(degree) =>
        var status := FbRotate(degree);
      case PostOp(k) =>
        if k in used {
          var addr := FbPost(used[k]);
        }
    }

    /** Any run of operations, in place. */
    method Execute(ghost g0: Geometry, ops: seq<Op>) returns (used: map<nat, Handle>)
      requires mapped && Sound(g0) && Inv(g0, World(View(), map[]))
      modifies this
      ensures mapped && World(View(), used) == Run(g0, World(old(View()), map[]), ops)
    {
      hide Inv, Step, Sound;
      used := map[];
      var i := 0;
      while i < |ops|
        invariant 0 <= i <= |ops| && mapped
        invariant Inv(g0, World(View(), used))
        invariant Run(g0, World(View(), used), ops[i..]) == Run(g0, World(old(View()), map[]), ops)
      {
        assert ops[i..][1..] == ops[i + 1..];
        StepInv(g0, World(View(), used), ops[i]);
        used := Perform(used, ops[i]);
        i := i + 1;
      }
    }
  }
}
