/** The layer cache of the hardware composer. When the layers of a frame match those remembered from an earlier one,
    all of them are handed to the display as overlays and the GPU is not started; the composition types are put back
    when the frame is shown. A frame is a prepare followed by a set of the same list. */
module LayerCache {
  import opened Options

  const CACHED_LAYERS_SIZE: nat := 16

  datatype Kind = Framebuffer | Overlay | Other(code: int)

  /** handle is 0 when there is none; `rects` says that the array of visible rectangles is there; `video` that the
      handle is an hwmem buffer in a YUV format. */
  datatype Layer = Layer(handle: nat, skip: bool, kind: Kind, numRects: int, rects: bool, video: bool)

  type Layers = seq<Layer>

  /** What the GPU composed last: nothing yet, a frame without a list, or the Framebuffer layers of a list. */
  datatype Picture = Blank | Unlisted | Of(list: Layers)

  /** `faulted` says that a set has read past the saved types; nothing is known from then on. The last four record what
      happened: `composed` is what the GPU composed last; `reference` the list that the cache was last filled from, and
      `before` what was composed until then; `bypassed` says that the GPU has composed a frame since, for which the
      cache was not consulted. */
  datatype State = State(
    cached: seq<nat>, count: nat, grabbed: bool, saved: seq<Kind>, pendingRotation: bool, faulted: bool,
    composed: Picture, reference: Layers, before: Picture, bypassed: bool)

  function Zeros(): seq<nat> {
    seq(CACHED_LAYERS_SIZE, _ => 0)
  }

  // ----- prepare

  predicate AnySkip(list: Layers) {
    exists l <- list :: l.skip
  }

  /** The type for the bottom layer. */
  function BottomKind(l: Layer): Kind {
    if l.numRects <= 0 || l.skip || l.handle == 0 then Framebuffer
    else if l.video then Overlay
    else Framebuffer
  }

  /** The loop over the layers looks at the bottom one, and at the next only to reset its type; it stops before that
      if the bottom layer has nothing to show. */
  function Choose(list: Layers, changed: bool): (chosen: Layers)
    ensures |chosen| == |list|
  {
    if list == [] || !(AnySkip(list) || changed) then list
    else
      var l := list[0];
      var list' := list[0 := l.(kind := BottomKind(l))];
      if |list| == 1 || l.numRects <= 0 || l.skip || l.handle == 0 then list'
      else list'[1 := list[1].(kind := Framebuffer)]
  }

  /** What choosing does to a list, layer by layer. If the geometry changed or a layer is to be skipped, the bottom
      layer becomes an overlay exactly if it is a video buffer with something visible, and is otherwise for the GPU; the
      next is for the GPU too, unless there is nothing of the bottom layer to show, when it keeps its type. Nothing but
      types changes, and no others. */
  ghost predicate Chosen(before: Layers, after: Layers, changed: bool) {
    && |after| == |before|
    && (forall i :: 0 <= i < |before| ==> after[i] == before[i].(kind := after[i].kind))
    && (forall i :: 2 <= i < |before| ==> after[i].kind == before[i].kind)
    && if changed || exists i :: 0 <= i < |before| && before[i].skip then
         && (0 < |before| ==>
               var l := before[0];
               after[0].kind == if l.video && l.handle != 0 && !l.skip && 0 < l.numRects then Overlay else Framebuffer)
         && (1 < |before| ==>
               var l := before[0];
               after[1].kind == if l.handle != 0 && !l.skip && 0 < l.numRects then Framebuffer else before[1].kind)
       else after == before
  }

  lemma ChooseExactly(list: Layers, changed: bool)
    ensures Chosen(list, Choose(list, changed), changed)
  {
    assert AnySkip(list) <==> exists i :: 0 <= i < |list| && list[i].skip by {
      if AnySkip(list) {
        var l :| l in list && l.skip;
        var i :| 0 <= i < |list| && list[i] == l;
      }
    }
  }

  /** init_layer_cache_locked */
  function Init(s: State): State {
    s.(cached := Zeros(), count := 0, grabbed := false)
  }

  predicate AnyOverlay(list: Layers) {
    exists l <- list :: l.kind == Overlay
  }

  /** The handles of the list, in an array that was cleared. */
  function Stored(list: Layers): seq<nat>
    requires |list| <= CACHED_LAYERS_SIZE
  {
    seq(CACHED_LAYERS_SIZE, i requires 0 <= i => if i < |list| then list[i].handle else 0)
  }

  /** populate_cached_layer_locked */
  function Populate(s: State, list: Layers): State
    requires |list| <= CACHED_LAYERS_SIZE
  {
    Init(s).(cached := Stored(list), count := if AnyOverlay(list) then |list| else 0,
             reference := list, before := s.composed, bypassed := false)
  }

  /** The comparison of the list with the cache, from layer i on. */
  function Scan(s: State, list: Layers, i: nat): (bool, State)
    requires i <= |list| <= CACHED_LAYERS_SIZE == |s.cached|
    decreases |list| - i
  {
    if i == |list| then (true, s)
    else
      var l := list[i];
      if l.handle == 0 || l.skip then (false, s.(count := 0))
      else if l.kind == Overlay || l.handle == s.cached[i] then Scan(s, list, i + 1)
      else (false, Populate(s, list))
  }

  /** check_cached_layers_locked */
  function Check(s: State, list: Layers): (bool, State)
    requires |s.cached| == CACHED_LAYERS_SIZE
  {
    if |list| > CACHED_LAYERS_SIZE then (false, s)
    else if s.count == 0 || s.count != |list| then (false, Populate(s, list))
    else Scan(s, list, 0)
  }

  function Kinds(list: Layers): seq<Kind> {
    seq(|list|, i requires 0 <= i < |list| => list[i].kind)
  }

  function AllOverlay(list: Layers): Layers {
    seq(|list|, i requires 0 <= i < |list| => list[i].(kind := Overlay))
  }

  /** hwcomposer_prepare of a list: whether the cache was hit, the context, and the list it leaves. */
  function Prepare(s: State, list: Layers, changed: bool): (bool, State, Layers)
    requires |s.cached| == CACHED_LAYERS_SIZE
  {
    var chosen := Choose(list, changed);
    if |chosen| == 1 || s.pendingRotation then
      (false, Init(s).(pendingRotation := false), chosen)
    else
      var (hit, s') := Check(s, chosen);
      if hit then (true, s'.(pendingRotation := false, saved := Kinds(chosen), grabbed := true), AllOverlay(chosen))
      else (false, s'.(pendingRotation := false), chosen)
  }

  // ----- set

  /** ungrab_fb_layers_locked */
  function Ungrab(saved: seq<Kind>, list: Layers): Layers
    requires |list| <= |saved|
  {
    seq(|list|, i requires 0 <= i < |list| => list[i].(kind := saved[i]))
  }

  /** What set sends to the display: the layers up to the first Framebuffer one, if anything of them is visible. */
  function DisplayLayers(list: Layers): (n: nat)
    ensures n <= |list|
    ensures n == |list| ==> forall l <- list :: l.kind != Framebuffer
    decreases |list|
  {
    if list == [] || list[0].kind == Framebuffer then 0
    else (if list[0].numRects > 0 && list[0].rects then 1 else 0) + DisplayLayers(list[1..])
  }

  /** Unless the frame is grabbed, set starts the GPU exactly when not all layers go to the display. */
  predicate StartsGpu(list: Layers) {
    DisplayLayers(list) != |list|
  }

  /** So exactly when some layer is for the GPU, or has nothing visible. */
  lemma {:induction false} StartsGpuExactly(list: Layers)
    ensures StartsGpu(list) <==> exists l <- list :: l.kind == Framebuffer || l.numRects <= 0 || !l.rects
    decreases |list|
  {
    if list != [] {
      assert list == [list[0]] + list[1..];
      StartsGpuExactly(list[1..]);
    }
  }

  /** hwcomposer_set: an old grab may have saved fewer types than there are layers now. */
  function Set(s: State, given: Option<Layers>): State {
    if given.None? then
      if s.grabbed then s else s.(composed := Unlisted, bypassed := true)
    else if s.grabbed then
      if |given.value| > |s.saved| then s.(faulted := true) else s
    else if StartsGpu(given.value) then
      s.(composed := Of(given.value), bypassed := s.bypassed || |given.value| > CACHED_LAYERS_SIZE)
    else s
  }

  /** What set leaves composed: nothing new in a frame that is grabbed or goes to the display entirely, the whole list
      if some layer of it is for the GPU or has nothing visible, and an empty picture without a list. The cache is
      bypassed by a frame composed without having been compared with it. */
  lemma SetExactly(s: State, given: Option<Layers>)
    ensures var s' := Set(s, given);
      && s' == s.(composed := s'.composed, bypassed := s'.bypassed, faulted := s'.faulted)
      && s'.composed ==
           (if s.grabbed then s.composed
            else match given
              case None => Unlisted
              case Some(list) =>
                if exists l <- list :: l.kind == Framebuffer || l.numRects <= 0 || !l.rects then Of(list) else s.composed)
      && (s'.bypassed <==>
            || s.bypassed
            || (!s.grabbed && match given
                  case None => true
                  case Some(list) =>
                    && |list| > CACHED_LAYERS_SIZE
                    && exists l <- list :: l.kind == Framebuffer || l.numRects <= 0 || !l.rects))
      && (s'.faulted <==> s.faulted || (s.grabbed && given.Some? && |given.value| > |s.saved|))
  {
    if given.Some? {
      StartsGpuExactly(given.value);
    }
  }

  // ----- runs

  datatype Event = Rotate | NoList | Frame(list: Layers, changed: bool)

  function Step(s: State, e: Event): State
    requires |s.cached| == CACHED_LAYERS_SIZE
  {
    if s.faulted then s
    else match e
      case Rotate => s.(pendingRotation := true)
      case NoList => Set(s, None)
      case Frame(list, changed) =>
        var (_, s', given) := Prepare(s, list, changed);
        Set(s', Some(given))
  }

  const INITIAL := State(Zeros(), 0, false, [], false, false, Blank, [], Blank, false)

  /** What the GPU composed last, if the cache holds something: the list it was filled from, unless that went to the
      display entirely, and unless another frame was composed since. */
  predicate PictureOk(s: State) {
    if s.bypassed then s.composed == Unlisted || (s.composed.Of? && |s.composed.list| > CACHED_LAYERS_SIZE)
    else s.composed == if StartsGpu(s.reference) then Of(s.reference) else s.before
  }

  /** What the cache holds: nothing, or the handles of the list it was filled from, which had an overlay. */
  predicate Inv(s: State) {
    && |s.cached| == CACHED_LAYERS_SIZE
    && (0 < s.count ==>
          && s.count == |s.reference| <= CACHED_LAYERS_SIZE
          && s.count != 1
          && AnyOverlay(s.reference)
          && (forall i :: 0 <= i < s.count ==> s.cached[i] == s.reference[i].handle)
          && PictureOk(s)
          && (s.grabbed ==> |s.saved| == s.count))
    && |s.saved| <= CACHED_LAYERS_SIZE
  }

  function Run(s: State, events: seq<Event>): (s': State)
    requires Inv(s)
    ensures Inv(s')
    decreases |events|
  {
    hide Step;
    if events == [] then s
    else
      StepInv(s, events[0]);
      Run(Step(s, events[0]), events[1..])
  }

  /** Layer i passes the comparison. */
  predicate Matches(s: State, list: Layers, i: nat)
    requires i < |list| <= |s.cached|
  {
    list[i].handle != 0 && !list[i].skip && (list[i].kind == Overlay || list[i].handle == s.cached[i])
  }

  /** The first layer from i on that does not pass. */
  function FirstMiss(s: State, list: Layers, i: nat): (m: nat)
    requires i <= |list| <= |s.cached|
    ensures i <= m <= |list|
    ensures forall j :: i <= j < m ==> Matches(s, list, j)
    ensures m < |list| ==> !Matches(s, list, m)
    decreases |list| - i
  {
    if i < |list| && Matches(s, list, i) then FirstMiss(s, list, i + 1) else i
  }

  predicate Missing(l: Layer) {
    l.handle == 0 || l.skip
  }

  /** A miss at a layer without a handle, or to be skipped, only empties the cache; any other miss fills it anew. */
  lemma {:induction false} ScanExactly(s: State, list: Layers, i: nat)
    requires i <= |list| <= CACHED_LAYERS_SIZE == |s.cached|
    ensures var m := FirstMiss(s, list, i);
      Scan(s, list, i) ==
        if m == |list| then (true, s)
        else if Missing(list[m]) then (false, s.(count := 0))
        else (false, Populate(s, list))
    decreases |list| - i
  {
    hide Populate;
    if i < |list| {
      ScanExactly(s, list, i + 1);
    }
  }

  lemma PopulateInv(s: State, list: Layers)
    requires |list| <= CACHED_LAYERS_SIZE && |list| != 1 && |s.saved| <= CACHED_LAYERS_SIZE
    ensures Inv(Set(Populate(s, list).(pendingRotation := false), Some(list)))
  {
    hide AnyOverlay, StartsGpu;
  }

  lemma FrameInv(s: State, list: Layers, changed: bool)
    requires Inv(s)
    ensures Inv(Step(s, Frame(list, changed)))
  {
    hide Choose, AnyOverlay, Scan, StartsGpu;
    var chosen := Choose(list, changed);
    if |chosen| != 1 && |chosen| <= CACHED_LAYERS_SIZE {
      PopulateInv(s, chosen);
      ScanExactly(s, chosen, 0);
    }
  }

  lemma StepInv(s: State, e: Event)
    requires Inv(s)
    ensures Inv(Step(s, e))
  {
    match e
    case Rotate =>
    case NoList =>
    case Frame(list, changed) => FrameInv(s, list, changed);
  }

  // ----- what holds after every run

  /** The cache is hit exactly when no rotation is pending, it was filled from a list of as many layers, and every
      layer has a handle, is not skipped, and is an overlay or carries the handle it had in that list; and then there
      are 2 to 16 layers, and the list it was filled from had an overlay. */
  lemma HitExactly(events: seq<Event>, list: Layers, changed: bool)
    ensures var s := Run(INITIAL, events); var chosen := Choose(list, changed); var hit := Prepare(s, list, changed).0;
      && (hit <==>
            && !s.pendingRotation && 0 < s.count && |chosen| == |s.reference|
            && forall i :: 0 <= i < |chosen| ==>
                 && chosen[i].handle != 0 && !chosen[i].skip
                 && (chosen[i].kind == Overlay || chosen[i].handle == s.reference[i].handle))
      && (hit ==> 2 <= |chosen| <= CACHED_LAYERS_SIZE && AnyOverlay(s.reference))
      && s.count <= CACHED_LAYERS_SIZE
  {
    hide Choose, Run, AnyOverlay, Scan, Populate, FirstMiss;
    var s := Run(INITIAL, events);
    var chosen := Choose(list, changed);
    if !s.pendingRotation && 0 < s.count && |chosen| == s.count {
      ScanExactly(s, chosen, 0);
      var m := FirstMiss(s, chosen, 0);
      assert m == |chosen| <==> forall i: nat :: i < |chosen| ==> Matches(s, chosen, i);
      forall i: nat | i < |chosen|
        ensures Matches(s, chosen, i) <==>
          chosen[i].handle != 0 && !chosen[i].skip
          && (chosen[i].kind == Overlay || chosen[i].handle == s.reference[i].handle)
      {
      }
    }
  }

  /** The cache holds the handles of the list and no others, to be used only if it has an overlay; no grab is left. */
  ghost predicate Filled(s: State, list: Layers) {
    && |s.cached| == CACHED_LAYERS_SIZE && |list| <= CACHED_LAYERS_SIZE && !s.grabbed
    && s.count == (if exists l <- list :: l.kind == Overlay then |list| else 0)
    && (forall i :: 0 <= i < |list| ==> s.cached[i] == list[i].handle)
    && (forall i :: |list| <= i < CACHED_LAYERS_SIZE ==> s.cached[i] == 0)
    && s.reference == list && s.before == s.composed && !s.bypassed
  }

  lemma PopulateFills(s: State, list: Layers)
    requires |list| <= CACHED_LAYERS_SIZE
    ensures Filled(Populate(s, list), list) && Populate(s, list).composed == s.composed
  {
  }

  /** The first layer that does not pass the comparison is one without a handle, or to be skipped. */
  predicate MissesMissing(s: State, list: Layers)
    requires |s.cached| == CACHED_LAYERS_SIZE
  {
    && 0 < s.count == |list| <= CACHED_LAYERS_SIZE
    && var m := FirstMiss(s, list, 0); m < |list| && Missing(list[m])
  }

  lemma CheckMisses(s: State, list: Layers)
    requires |s.cached| == CACHED_LAYERS_SIZE && |list| <= CACHED_LAYERS_SIZE
    ensures !Check(s, list).0 ==>
      Check(s, list).1 == if MissesMissing(s, list) then s.(count := 0) else Populate(s, list)
  {
    hide Populate;
    ScanExactly(s, list, 0);
  }

  /** What a prepare that does not hit leaves: an empty cache for a single layer or after a turn of the screen; the
      same cache for too many layers; an emptied one where the first layer that does not pass has no handle or is to be
      skipped; and otherwise a cache filled from this very list. The turn is over. */
  lemma MissExactly(s: State, list: Layers, changed: bool)
    requires |s.cached| == CACHED_LAYERS_SIZE && !Prepare(s, list, changed).0
    ensures var chosen := Choose(list, changed); var (_, s', given) := Prepare(s, list, changed);
      && given == chosen && !s'.pendingRotation && s'.saved == s.saved && s'.composed == s.composed
      && if |chosen| == 1 || s.pendingRotation then s'.count == 0 && !s'.grabbed && forall h <- s'.cached :: h == 0
         else if |chosen| > CACHED_LAYERS_SIZE then s' == s
         else if MissesMissing(s, chosen) then s' == s.(count := 0)
         else Filled(s', chosen)
  {
    hide Choose, Check, MissesMissing, Filled;
    var chosen := Choose(list, changed);
    if |chosen| != 1 && !s.pendingRotation {
      if |chosen| <= CACHED_LAYERS_SIZE {
        CheckMisses(s, chosen);
        PopulateFills(s, chosen);
        FilledSettles(Populate(s, chosen), chosen);
      } else {
        CrowdPrepared(s, list, changed);
      }
    }
  }

  /** The frame that follows a turn of the screen is not a hit, whatever the cache holds; it leaves the cache empty,
      no grab, and no turn pending. Frames without a list in between do not matter. */
  lemma TurnForgets(s: State, gaps: nat, list: Layers, changed: bool)
    requires Inv(s) && !s.faulted
    ensures var t := Run(s, [Rotate] + Gaps(gaps)); var (hit, t', given) := Prepare(t, list, changed);
      && !hit && t'.count == 0 && !t'.grabbed && !t'.pendingRotation && given == Choose(list, changed)
  {
    hide Choose, Check;
    TurnPends(s, gaps);
  }

  function Gaps(n: nat): seq<Event> {
    seq(n, _ => NoList)
  }

  lemma TurnPends(s: State, gaps: nat)
    requires Inv(s) && !s.faulted
    ensures Run(s, [Rotate] + Gaps(gaps)).pendingRotation
  {
    hide Run;
    RunFirst(s, Rotate, Gaps(gaps));
    GapsPend(Step(s, Rotate), gaps);
  }

  lemma RunFirst(s: State, e: Event, events: seq<Event>)
    requires Inv(s)
    ensures Inv(Step(s, e)) && Run(s, [e] + events) == Run(Step(s, e), events)
  {
    hide Step;
    StepInv(s, e);
    assert ([e] + events)[1..] == events;
  }

  lemma {:induction false} GapsPend(s: State, gaps: nat)
    requires Inv(s) && s.pendingRotation
    ensures Run(s, Gaps(gaps)).pendingRotation
    decreases gaps
  {
    if gaps != 0 {
      assert Gaps(gaps)[1..] == Gaps(gaps - 1);
      StepInv(s, NoList);
      GapsPend(Step(s, NoList), gaps - 1);
    }
  }

  lemma FilledSettles(s: State, list: Layers)
    requires Filled(s, list)
    ensures Filled(s.(pendingRotation := false), list)
  {
  }

  /** Layer i of a list of n, with this handle, is in the picture. */
  predicate Draws(p: Picture, n: nat, i: nat, handle: nat) {
    p.Of? && i < |p.list| == n && p.list[i].kind == Framebuffer && p.list[i].handle == handle
  }

  /** A hit keeps the GPU from being started, so its Framebuffer layers are seen only if they are in what the GPU
      composed last. Such a layer is exactly when no frame bypassed the cache since it was filled and, if the frame it
      was filled from was composed, the layer was a Framebuffer layer there as well; if that frame went to the display
      entirely, when the layer was in the picture already. */
  lemma HitShowsExactly(events: seq<Event>, list: Layers, changed: bool, i: nat)
    requires Prepare(Run(INITIAL, events), list, changed).0
    requires i < |list| && Choose(list, changed)[i].kind == Framebuffer
    ensures var s := Run(INITIAL, events); var chosen := Choose(list, changed); var n := |chosen|;
      && n == |s.reference|
      && (Draws(s.composed, n, i, chosen[i].handle) <==>
            && !s.bypassed
            && (if StartsGpu(s.reference) then s.reference[i].kind == Framebuffer
                else Draws(s.before, n, i, s.reference[i].handle)))
  {
    hide Run, Choose, Prepare, AnyOverlay, StartsGpu;
    HitExactly(events, list, changed);
    var s := Run(INITIAL, events);
    assert Inv(s) && PictureOk(s);
  }

  /** So a cache filled from a frame that was composed, with no frame composed past it since, shows every layer that has
      not stopped being an overlay. */
  lemma HitShowsAll(events: seq<Event>, list: Layers, changed: bool)
    requires Prepare(Run(INITIAL, events), list, changed).0
    ensures var s := Run(INITIAL, events); var chosen := Choose(list, changed);
      && |chosen| == |s.reference|
      && (!s.bypassed && StartsGpu(s.reference) ==>
            ((forall i: nat :: i < |chosen| && chosen[i].kind == Framebuffer ==>
                Draws(s.composed, |chosen|, i, chosen[i].handle))
             <==> forall i: nat :: i < |chosen| && chosen[i].kind == Framebuffer ==> s.reference[i].kind == Framebuffer))
  {
    hide Run, Prepare, StartsGpu, Draws;
    HitExactly(events, list, changed);
    forall i: nat | i < |list| && Choose(list, changed)[i].kind == Framebuffer
      ensures var s := Run(INITIAL, events); var chosen := Choose(list, changed);
        !s.bypassed && StartsGpu(s.reference) ==>
          (Draws(s.composed, |chosen|, i, chosen[i].handle) <==> s.reference[i].kind == Framebuffer)
    {
      HitShowsExactly(events, list, changed, i);
    }
  }

  /** In a frame whose prepare hit, set puts back exactly the types that prepare had chosen. */
  lemma RestoresChosen(s: State, list: Layers, changed: bool)
    requires |s.cached| == CACHED_LAYERS_SIZE
    requires Prepare(s, list, changed).0
    ensures var (hit, s', given) := Prepare(s, list, changed);
      && s'.grabbed && |given| == |s'.saved|
      && (forall l <- given :: l.kind == Overlay)
      && Ungrab(s'.saved, given) == Choose(list, changed)
  {
    hide Choose, Check;
    var chosen := Choose(list, changed);
    assert Ungrab(Kinds(chosen), AllOverlay(chosen)) == chosen;
  }

  /** After prepare the frame counts as grabbed exactly when it hit, or an earlier grab was left over: that is when the
      cache was bypassed for too many layers, or missed at a layer without a handle or to be skipped. Up to 16 layers,
      there is always a saved type for each of them. */
  lemma GrabbedExactly(events: seq<Event>, list: Layers, changed: bool)
    ensures var s := Run(INITIAL, events); var chosen := Choose(list, changed);
      var (hit, s', _) := Prepare(s, list, changed);
      && (s'.grabbed <==> hit || (s.grabbed && !s.pendingRotation && |chosen| != 1 && LeftOver(s, chosen)))
      && (s'.grabbed && |chosen| <= CACHED_LAYERS_SIZE ==> |s'.saved| == |chosen|)
  {
    hide Choose, Run, AnyOverlay, Scan, Stored, FirstMiss;
    var s := Run(INITIAL, events);
    var chosen := Choose(list, changed);
    if |chosen| <= CACHED_LAYERS_SIZE {
      ScanExactly(s, chosen, 0);
    }
  }

  predicate LeftOver(s: State, list: Layers)
    requires |s.cached| == CACHED_LAYERS_SIZE
  {
    |list| > CACHED_LAYERS_SIZE || MissesMissing(s, list)
  }

  /** A list that is too long for the cache, while the grab of an earlier frame is in place and no rotation pends. */
  predicate Overruns(s: State, e: Event) {
    e.Frame? && s.grabbed && !s.pendingRotation && |e.list| > CACHED_LAYERS_SIZE
  }

  /** Set reads past the saved types exactly when a list of more than 16 layers follows a grab, with no rotation in
      between. */
  lemma RestoreOverrunsExactly(events: seq<Event>, list: Layers, changed: bool)
    ensures var s := Run(INITIAL, events); var (_, s', given) := Prepare(s, list, changed);
      s'.grabbed && |given| > |s'.saved| <==> Overruns(s, Frame(list, changed))
  {
    hide Choose, Run, AnyOverlay, Check;
    GrabbedExactly(events, list, changed);
    if |list| > CACHED_LAYERS_SIZE {
      CrowdPrepared(Run(INITIAL, events), list, changed);
    }
  }

  lemma CrowdPrepared(s: State, list: Layers, changed: bool)
    requires |s.cached| == CACHED_LAYERS_SIZE < |list|
    ensures var chosen := Choose(list, changed);
      Prepare(s, list, changed) == (false, (if s.pendingRotation then Init(s) else s).(pendingRotation := false), chosen)
  {
    hide Choose;
  }

  lemma {:induction false} RunLast(s: State, events: seq<Event>, e: Event)
    requires Inv(s)
    ensures Run(s, events + [e]) == Step(Run(s, events), e)
    decreases |events|
  {
    hide Step;
    if events == [] {
      assert events + [e] == [e];
      StepInv(s, e);
      assert Run(Step(s, e), []) == Step(s, e);
    } else {
      assert (events + [e])[1..] == events[1..] + [e];
      StepInv(s, events[0]);
      RunLast(Step(s, events[0]), events[1..], e);
    }
  }

  lemma StepFaults(events: seq<Event>, e: Event)
    ensures var s := Run(INITIAL, events); Step(s, e).faulted <==> s.faulted || Overruns(s, e)
  {
    hide Run, Prepare, StartsGpu, Overruns;
    if e.Frame? {
      RestoreOverrunsExactly(events, e.list, e.changed);
      PrepareKeepsFault(Run(INITIAL, events), e.list, e.changed);
    } else {
      assert !Overruns(Run(INITIAL, events), e) by { NotAFrame(Run(INITIAL, events), e); }
    }
  }

  lemma NotAFrame(s: State, e: Event)
    requires !e.Frame?
    ensures !Overruns(s, e)
  {
  }

  lemma PrepareKeepsFault(s: State, list: Layers, changed: bool)
    requires |s.cached| == CACHED_LAYERS_SIZE
    ensures Prepare(s, list, changed).1.faulted == s.faulted
  {
    hide Choose, AnyOverlay, Scan, Stored;
    var chosen := Choose(list, changed);
    if |chosen| <= CACHED_LAYERS_SIZE {
      ScanExactly(s, chosen, 0);
    }
  }

  /** A run reads past the saved types exactly when some frame of it is too long right after a grab. */
  lemma {:induction false} FaultsExactly(events: seq<Event>)
    ensures Run(INITIAL, events).faulted <==>
      exists k :: 0 <= k < |events| && Overruns(Run(INITIAL, events[..k]), events[k])
    decreases |events|
  {
    hide Run, Step, Overruns;
    if events == [] {
      assert !Run(INITIAL, []).faulted by { NothingRun(); }
    } else {
      var n := |events| - 1;
      var front := events[..n];
      assert events == front + [events[n]];
      FaultsExactly(front);
      RunLast(INITIAL, front, events[n]);
      StepFaults(front, events[n]);
      forall k | 0 <= k < n
        ensures front[..k] == events[..k] && front[k] == events[k]
      {
      }
      if k :| 0 <= k < n && Overruns(Run(INITIAL, front[..k]), front[k]) {
        assert Overruns(Run(INITIAL, events[..k]), events[k]);
      }
      if k :| 0 <= k < |events| && Overruns(Run(INITIAL, events[..k]), events[k]) {
        assert k < n ==> Overruns(Run(INITIAL, front[..k]), front[k]);
      }
    }
  }

  /** After a fault nothing happens any more. */
  lemma {:induction false} FaultStays(s: State, events: seq<Event>)
    requires Inv(s)
    ensures s.faulted || events == [] ==> Run(s, events) == s
    decreases |events|
  {
    if s.faulted && events != [] {
      assert Step(s, events[0]) == s;
      FaultStays(s, events[1..]);
    }
  }

  lemma NothingRun()
    ensures Run(INITIAL, []) == INITIAL
  {
  }

  // ----- where an old grab shows

  const VIDEO := Layer(1, false, Framebuffer, 1, true, true)
  const BUTTONS := Layer(2, false, Framebuffer, 1, true, false)
  const GONE := Layer(0, false, Framebuffer, 1, true, false)

  /** A frame that fills the cache, and one that hits it. */
  const GRABBED: seq<Event> := [Frame([VIDEO, BUTTONS], true), Frame([VIDEO, BUTTONS], true)]

  lemma FillStep()
    ensures var chosen := Choose([VIDEO, BUTTONS], true); var s := Step(INITIAL, Frame([VIDEO, BUTTONS], true));
      && chosen == [VIDEO.(kind := Overlay), BUTTONS]
      && s == INITIAL.(cached := Stored(chosen), count := 2, reference := chosen, composed := Of(chosen))
      && Scan(s, chosen, 0) == (true, s)
  {
    var chosen := Choose([VIDEO, BUTTONS], true);
    assert chosen == [VIDEO.(kind := Overlay), BUTTONS];
    assert chosen[0].kind == Overlay;
    var s := Step(INITIAL, Frame([VIDEO, BUTTONS], true));
    assert s.cached[0] == 1 && s.cached[1] == 2;
    assert Scan(s, chosen, 2) == (true, s);
    assert Scan(s, chosen, 1) == (true, s);
  }

  const MANY: Layers := seq(17, _ => BUTTONS)

  /** A frame that fills the cache, and one with too many layers. */
  const CROWDED: seq<Event> := [Frame([VIDEO, BUTTONS], true), Frame(MANY, false)]

  /** A frame with too many layers is composed, and the next one with the old layers is still a hit, although its
      Framebuffer layer is not in the picture. */
  lemma HitAfterCrowd()
    ensures var s := Run(INITIAL, CROWDED); var chosen := Choose([VIDEO, BUTTONS], true);
      && Prepare(s, [VIDEO, BUTTONS], true).0 && s.composed == Of(MANY)
      && |chosen| == 2 && chosen[1].kind == Framebuffer && !Draws(s.composed, 2, 1, chosen[1].handle)
  {
    FillStep();
    var chosen := Choose([VIDEO, BUTTONS], true);
    var s1 := Step(INITIAL, CROWDED[0]);
    assert Choose(MANY, false) == MANY;
    assert MANY[0].kind == Framebuffer;
    var s2 := Step(s1, CROWDED[1]);
    assert s2 == s1.(composed := Of(MANY), bypassed := true);
    assert Run(s1, CROWDED[1..]) == Run(s2, []);
    SameScan(s1, s2, chosen, 0);
  }

  const FRONT := BUTTONS.(kind := Overlay)
  const BACK := VIDEO.(kind := Overlay)

  /** A frame of overlays only, all of it visible. */
  const OVERLAID: seq<Event> := [Frame([BACK, FRONT], false)]

  lemma AfterOverlays()
    ensures var s := Run(INITIAL, OVERLAID);
      && s == INITIAL.(cached := Stored([BACK, FRONT]), count := 2, reference := [BACK, FRONT])
      && s.cached[0] == 1 && s.cached[1] == 2
  {
    var list := [BACK, FRONT];
    assert Choose(list, false) == list;
    assert list[0].kind == Overlay;
    assert list[1..] == [FRONT] && [FRONT][1..] == [];
    assert DisplayLayers([FRONT]) == 1 + DisplayLayers([]);
    assert DisplayLayers(list) == 2;
    var s := Step(INITIAL, OVERLAID[0]);
    assert Run(INITIAL, OVERLAID) == Run(s, []);
  }

  /** Nothing was composed for it; a layer of it that is to be composed now is a hit nevertheless, and was never
      drawn. */
  lemma HitNeverComposed()
    ensures var s := Run(INITIAL, OVERLAID); var list := [BACK, BUTTONS];
      && Choose(list, false) == list && Prepare(s, list, false).0 && !s.bypassed
      && s.composed == Blank && !Draws(s.composed, 2, 1, BUTTONS.handle)
  {
    AfterOverlays();
    var s := Run(INITIAL, OVERLAID);
    var list := [BACK, BUTTONS];
    assert Choose(list, false) == list;
    assert Scan(s, list, 2) == (true, s);
    assert Scan(s, list, 1) == (true, s);
    assert Scan(s, list, 0) == (true, s);
  }

  lemma {:induction false} SameScan(s: State, t: State, list: Layers, i: nat)
    requires i <= |list| <= CACHED_LAYERS_SIZE == |s.cached| && s.cached == t.cached
    ensures Scan(s, list, i).0 == Scan(t, list, i).0
    decreases |list| - i
  {
    if i < |list| {
      SameScan(s, t, list, i + 1);
    }
  }

  lemma AfterGrab()
    ensures var s := Run(INITIAL, GRABBED);
      && s.grabbed && s.saved == [Overlay, Framebuffer] && s.count == 2 && !s.pendingRotation
      && !s.faulted && |s.cached| == CACHED_LAYERS_SIZE
  {
    FillStep();
    var chosen := Choose([VIDEO, BUTTONS], true);
    var s1 := Step(INITIAL, GRABBED[0]);
    var s2 := Step(s1, GRABBED[1]);
    assert s2.saved == Kinds(chosen) == [Overlay, Framebuffer];
    assert Run(s1, GRABBED[1..]) == Run(s2, []);
  }

  /** After a grab, a frame whose bottom layer has lost its handle is not a hit, but set gives that layer the type it
      had in the grabbed frame, not the one chosen for it. */
  lemma OldTypesRestored()
    ensures var s := Run(INITIAL, GRABBED); var (hit, s', given) := Prepare(s, [GONE, BUTTONS], true);
      && !hit && s'.grabbed && |s'.saved| == |given|
      && given[0].kind == Framebuffer && Ungrab(s'.saved, given)[0].kind == Overlay
  {
    AfterGrab();
    var s := Run(INITIAL, GRABBED);
    var chosen := Choose([GONE, BUTTONS], true);
    assert chosen == [GONE, BUTTONS];
    assert Scan(s, chosen, 0) == (false, s.(count := 0));
  }

  /** After a grab of two layers, set reads the types of seventeen. */
  lemma RestoreOverruns()
    ensures var s := Run(INITIAL, GRABBED); var (hit, s', given) := Prepare(s, MANY, false);
      && !hit && s'.grabbed && |s'.saved| == 2 && |given| == 17
      && Step(s, Frame(MANY, false)).faulted
  {
    AfterGrab();
    assert Choose(MANY, false) == MANY;
  }
}
