/** The context of the hardware composer and the list of a frame, updated in place; each method is proved to be the
    operation of LayerCache. */
module LayerCacheContext {
  import opened Options
  import opened LayerCache

  class Context {
    var cachedLayers: array?<nat>
    var cachedLayersCount: nat
    var grabbedAllLayers: bool
    var actualTypes: array?<Kind>
    var actualTypesSize: nat
    var pendingRotation: bool
    ghost var faulted: bool
    ghost var composed: Picture
    ghost var reference: Layers
    ghost var before: Picture
    ghost var bypassed: bool

    ghost predicate Valid()
      reads this
    {
      && (if cachedLayers == null then cachedLayersCount == 0 && !grabbedAllLayers
          else cachedLayers.Length == CACHED_LAYERS_SIZE)
      && actualTypesSize == (if actualTypes == null then 0 else actualTypes.Length)
    }

    ghost function Cached(): seq<nat>
      reads this, cachedLayers
    {
      if cachedLayers == null then Zeros() else cachedLayers[..]
    }

    ghost function Saved(): seq<Kind>
      reads this, actualTypes
    {
      if actualTypes == null then [] else actualTypes[..]
    }

    ghost function View(): State
      reads this, cachedLayers, actualTypes
    {
      State(Cached(), cachedLayersCount, grabbedAllLayers, Saved(), pendingRotation, faulted,
            composed, reference, before, bypassed)
    }

    constructor ()
      ensures Valid() && View() == INITIAL
    {
      cachedLayers, cachedLayersCount, grabbedAllLayers := null, 0, false;
      actualTypes, actualTypesSize, pendingRotation := null, 0, false;
      faulted, composed, reference, before, bypassed := false, Blank, [], Blank, false;
    }

    /** init_layer_cache_locked */
    method InitLayerCache()
      requires Valid()
      modifies this, cachedLayers
      ensures Valid() && cachedLayers != null && (cachedLayers == old(cachedLayers) || fresh(cachedLayers))
      ensures actualTypes == old(actualTypes)
      ensures View() == Init(old(View()))
    {
      if cachedLayers == null {
        cachedLayers := new nat[CACHED_LAYERS_SIZE];
      }
      cachedLayersCount := 0;
      grabbedAllLayers := false;
      forall i | 0 <= i < CACHED_LAYERS_SIZE {
        cachedLayers[i] := 0;
      }
      assert cachedLayers[..] == Zeros();
    }

    /** The loop of populate_cached_layer_locked. */
    method StoreHandles(handles: array<nat>, list: array<Layer>) returns (overlay: bool)
      requires list.Length <= CACHED_LAYERS_SIZE && handles[..] == Zeros() && cachedLayersCount == 0
      modifies `cachedLayersCount, handles
      ensures handles[..] == Stored(list[..]) && cachedLayersCount == list.Length
      ensures overlay <==> AnyOverlay(list[..])
    {
      overlay := false;
      var i := 0;
      while i < list.Length
        invariant 0 <= i == cachedLayersCount <= list.Length
        invariant overlay <==> AnyOverlay(list[..i])
        invariant forall j :: 0 <= j < CACHED_LAYERS_SIZE ==> handles[j] == if j < i then list[j].handle else 0
      {
        assert list[..i + 1] == list[..i] + [list[i]];
        if list[i].kind == Overlay {
          overlay := true;
        }
        handles[i] := list[i].handle;
        cachedLayersCount := cachedLayersCount + 1;
        i := i + 1;
      }
      assert list[..i] == list[..];
    }

    /** populate_cached_layer_locked */
    method PopulateCachedLayer(list: array<Layer>)
      requires Valid() && list.Length <= CACHED_LAYERS_SIZE
      modifies this, cachedLayers
      ensures Valid() && cachedLayers != null && (cachedLayers == old(cachedLayers) || fresh(cachedLayers))
      ensures actualTypes == old(actualTypes)
      ensures View() == Populate(old(View()), list[..])
    {
      hide Stored, AnyOverlay, Zeros;
      InitLayerCache();
      var overlay := StoreHandles(cachedLayers, list);
      if !overlay {
        cachedLayersCount := 0;
      }
      reference := list[..];
      before := composed;
      bypassed := false;
    }

    lemma CachedSize()
      requires Valid()
      ensures |View().cached| == CACHED_LAYERS_SIZE
    {
    }

    /** check_cached_layers_locked */
    method CheckCachedLayers(list: array<Layer>) returns (hit: bool)
      requires Valid()
      modifies this, cachedLayers
      ensures Valid() && cachedLayers != null && (cachedLayers == old(cachedLayers) || fresh(cachedLayers))
      ensures actualTypes == old(actualTypes)
      ensures (hit, View()) == Check(old(View()), list[..])
    {
      hide Populate, Zeros;
      ghost var before := View();
      if cachedLayers == null {
        InitLayerCache();
      }
      if list.Length > CACHED_LAYERS_SIZE {
        return false;
      }
      if cachedLayersCount == 0 || cachedLayersCount != list.Length {
        PopulateCachedLayer(list);
        return false;
      }
      var i := 0;
      while i < list.Length
        invariant 0 <= i <= list.Length
        invariant Valid() && View() == before
        invariant cachedLayers != null && (cachedLayers == old(cachedLayers) || fresh(cachedLayers))
        invariant actualTypes == old(actualTypes)
        invariant Scan(before, list[..], 0) == Scan(before, list[..], i)
      {
        if list[i].handle != 0 && !list[i].skip {
          if list[i].kind != Overlay && list[i].handle != cachedLayers[i] {
            PopulateCachedLayer(list);
            return false;
          }
        } else {
          cachedLayersCount := 0;
          return false;
        }
        i := i + 1;
      }
      return true;
    }

    /** The loop of grab_all_layers_locked. */
    method SaveTypes(types: array<Kind>, list: array<Layer>)
      requires types.Length == list.Length
      modifies types, list
      ensures types[..] == Kinds(old(list[..]))
      ensures list[..] == AllOverlay(old(list[..]))
    {
      var i := 0;
      while i < list.Length
        invariant 0 <= i <= list.Length
        invariant types[..i] == Kinds(old(list[..]))[..i]
        invariant list[..i] == AllOverlay(old(list[..]))[..i]
        invariant list[i..] == old(list[i..])
      {
        types[i] := list[i].kind;
        list[i] := list[i].(kind := Overlay);
        i := i + 1;
      }
    }

    /** grab_all_layers_locked */
    method GrabAllLayers(list: array<Layer>)
      requires Valid() && cachedLayers != null
      modifies this, actualTypes, list
      ensures Valid() && cachedLayers == old(cachedLayers)
      ensures actualTypes == old(actualTypes) || fresh(actualTypes)
      ensures View() == old(View()).(saved := Kinds(old(list[..])), grabbed := true)
      ensures list[..] == AllOverlay(old(list[..]))
    {
      hide Kinds, AllOverlay;
      if actualTypes == null || actualTypesSize != list.Length {
        actualTypes := new Kind[list.Length](_ => Framebuffer);
        actualTypesSize := list.Length;
      }
      SaveTypes(actualTypes, list);
      grabbedAllLayers := true;
    }

    /** ungrab_fb_layers_locked; false if the saved types run out before the layers do, when what is read next is not
        one of them. */
    method UngrabFbLayers(list: array<Layer>) returns (inBounds: bool)
      requires Valid()
      modifies list
      ensures inBounds <==> list.Length <= |Saved()|
      ensures inBounds ==> list[..] == Ungrab(Saved(), old(list[..]))
      ensures View() == old(View())
    {
      var i := 0;
      while i < list.Length
        invariant 0 <= i <= list.Length && i <= |Saved()|
        invariant list[..i] == Restored(Saved(), old(list[..]), i)
        invariant list[i..] == old(list[i..])
      {
        if i >= actualTypesSize {
          return false;
        }
        list[i] := list[i].(kind := actualTypes[i]);
        i := i + 1;
      }
      return true;
    }

    /** The first n layers with their saved types. */
    ghost function Restored(saved: seq<Kind>, list: Layers, n: nat): Layers
      requires n <= |list| && n <= |saved|
    {
      Ungrab(saved[..n], list[..n])
    }

    /** The part of hwcomposer_prepare that chooses the types. */
    method ChooseTypes(list: array<Layer>, changed: bool)
      modifies list
      ensures list[..] == Choose(old(list[..]), changed) && Chosen(old(list[..]), list[..], changed)
      ensures View() == old(View())
    {
      ChooseExactly(list[..], changed);
      hide Chosen;
      var skipLayerScene := false;
      var i := 0;
      while i < list.Length
        invariant 0 <= i <= list.Length
        invariant list[..] == old(list[..])
        invariant skipLayerScene <==> AnySkip(list[..i])
      {
        assert list[..i + 1] == list[..i] + [list[i]];
        if list[i].skip {
          skipLayerScene := true;
          SkipSeen(list[..], i);
          break;
        }
        i := i + 1;
      }
      assert !skipLayerScene ==> list[..] == list[..i];
      if skipLayerScene || changed {
        ChooseBottom(list);
      }
    }

    lemma SkipSeen(list: Layers, i: nat)
      requires i < |list| && list[i].skip
      ensures AnySkip(list)
    {
    }

    /** The loop that looks at the bottom layer. */
    method ChooseBottom(list: array<Layer>)
      modifies list
      ensures AnySkip(old(list[..])) ==> list[..] == Choose(old(list[..]), false)
      ensures list[..] == Choose(old(list[..]), true)
    {
      var i := 0;
      while i < list.Length
        invariant 0 <= i <= list.Length && i <= 1
        invariant i == 0 ==> list[..] == old(list[..])
        invariant i == 1 ==>
          var l := old(list[..])[0];
          && list[..] == old(list[..])[0 := l.(kind := BottomKind(l))]
          && 0 < l.numRects && !l.skip && l.handle != 0
      {
        list[i] := list[i].(kind := Framebuffer);
        if i > 0 {
          break;
        }
        if list[i].numRects <= 0 {
          break;
        }
        if list[i].skip || list[i].handle == 0 {
          break;
        }
        if list[i].video {
          list[i] := list[i].(kind := Overlay);
        }
        i := i + 1;
      }
    }

    /** hwcomposer_prepare of a list. */
    method PrepareFrame(list: array<Layer>, changed: bool) returns (hit: bool)
      requires Valid()
      modifies this, cachedLayers, actualTypes, list
      ensures Valid()
      ensures cachedLayers == old(cachedLayers) || fresh(cachedLayers)
      ensures actualTypes == old(actualTypes) || fresh(actualTypes)
      ensures (hit, View(), list[..]) == Prepare(old(View()), old(list[..]), changed)
    {
      hide Choose, Check, Kinds, AllOverlay, Zeros, Cached, Saved;
      ChooseTypes(list, changed);
      hit := false;
      if list.Length != 1 && !pendingRotation {
        hit := CheckCachedLayers(list);
        if hit {
          GrabAllLayers(list);
        }
      } else {
        InitLayerCache();
      }
      SettleRotation();
    }

    /** The loop of hwcomposer_set that counts the layers for the display. */
    method CountDisplayLayers(list: array<Layer>) returns (n: nat)
      ensures n == DisplayLayers(list[..])
    {
      n := 0;
      var i := 0;
      while i < list.Length
        invariant 0 <= i <= list.Length
        invariant n + DisplayLayers(list[i..]) == DisplayLayers(list[..])
      {
        assert list[i..][1..] == list[i + 1..];
        if list[i].kind == Framebuffer {
          break;
        }
        if list[i].numRects > 0 && list[i].rects {
          n := n + 1;
        }
        i := i + 1;
      }
    }

    /** hwcomposer_set of a list, as far as types and the GPU go: the types are put back if the frame is grabbed, and
        otherwise the GPU is started unless all layers go to the display. False if the saved types ran out. */
    method SetFrame(list: array<Layer>) returns (inBounds: bool, gpu: bool)
      requires Valid()
      modifies this, list
      ensures Valid() && cachedLayers == old(cachedLayers) && actualTypes == old(actualTypes)
      ensures View() == Set(old(View()), Some(old(list[..])))
      ensures inBounds <==> old(grabbedAllLayers ==> list.Length <= |Saved()|)
      ensures inBounds ==>
        list[..] == if old(grabbedAllLayers) then Ungrab(old(Saved()), old(list[..])) else old(list[..])
      ensures gpu <==> !old(grabbedAllLayers) && StartsGpu(old(list[..]))
      ensures composed == if gpu then Of(old(list[..])) else old(composed)
    {
      inBounds, gpu := true, false;
      if grabbedAllLayers {
        inBounds := UngrabFbLayers(list);
        if !inBounds {
          faulted := true;
          return;
        }
      }
      var count := CountDisplayLayers(list);
      if !grabbedAllLayers {
        if list.Length != count {
          gpu := true;
          composed := Of(list[..]);
          bypassed := bypassed || list.Length > CACHED_LAYERS_SIZE;
        }
      }
    }

    /** hwcomposer_set without a list. */
    method SetNothing() returns (gpu: bool)
      requires Valid()
      modifies this`composed, this`bypassed
      ensures Valid() && View() == Set(old(View()), None)
      ensures gpu <==> !grabbedAllLayers
      ensures composed == if gpu then Unlisted else old(composed)
    {
      gpu := !grabbedAllLayers;
      if gpu {
        composed, bypassed := Unlisted, true;
      }
    }

    /** One event: a parameter that turns the screen, or a frame. Nothing is done after a fault. */
    method Perform(e: Event) returns (inBounds: bool)
      requires Valid() && !faulted
      modifies this, cachedLayers, actualTypes
      ensures Valid() && View() == Step(old(View()), e)
      ensures inBounds <==> !faulted
      ensures cachedLayers == old(cachedLayers) || fresh(cachedLayers)
      ensures actualTypes == old(actualTypes) || fresh(actualTypes)
    {
      hide Choose, Check, Cached, Saved, StartsGpu, Kinds, AllOverlay, Zeros;
      inBounds := true;
      match e
      case Rotate =>
        TurnScreen();
      case NoList =>
        var gpu := SetNothing();
      case Frame(layers, changed) =>
        var list := new Layer[|layers|](i requires 0 <= i < |layers| => layers[i]);
        assert list[..] == layers;
        CachedSize();
        PrepareKeepsFault(View(), layers, changed);
        var hit := PrepareFrame(list, changed);
        var gpu;
        inBounds, gpu := SetFrame(list);
    }

    /** The part of hwcomposer_setparameter that turns the screen. */
    method TurnScreen()
      requires Valid()
      modifies `pendingRotation
      ensures Valid() && View() == old(View()).(pendingRotation := true)
    {
      pendingRotation := true;
    }

    /** Any run of events, up to a fault. */
    method Execute(events: seq<Event>)
      requires Valid() && Inv(View()) && !faulted
      modifies this, cachedLayers, actualTypes
      ensures Valid() && View() == Run(old(View()), events)
    {
      hide Inv, Step;
      var i, inBounds := 0, true;
      while i < |events| && inBounds
        invariant 0 <= i <= |events| && (inBounds <==> !faulted)
        invariant Valid() && Inv(View())
        invariant cachedLayers == old(cachedLayers) || fresh(cachedLayers)
        invariant actualTypes == old(actualTypes) || fresh(actualTypes)
        invariant Run(View(), events[i..]) == Run(old(View()), events)
      {
        assert events[i..][1..] == events[i + 1..];
        StepInv(View(), events[i]);
        inBounds := Perform(events[i]);
        i := i + 1;
      }
      FaultStays(View(), events[i..]);
    }

    method SettleRotation()
      requires Valid()
      modifies `pendingRotation
      ensures Valid() && View() == old(View()).(pendingRotation := false)
    {
      pendingRotation := false;
    }
  }
}
