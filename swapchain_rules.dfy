/** The selection rules the swap chain applies to what the driver reports: queue families,
    surface format, extent, present mode, image count, usage, pre-transform and composite
    alpha. Each rule is a specification function; each early-exit search loop of the source
    is a method proved equal to its specification function. */
module SwapChainRules {
  import opened Vk

  datatype Option<T> = None | Some(value: T)

  /** `k` is the position of the first true entry of `s`. */
  ghost predicate IsFirstIndex(s: seq<bool>, k: nat)
  {
    k < |s| && s[k] && forall j :: 0 <= j < k ==> !s[j]
  }

  /** The first position at which `s` holds, if any: the result of a forward scan that
      stops at its first hit. */
  function FirstTrue(s: seq<bool>): (r: Option<nat>)
    ensures r.Some? ==> IsFirstIndex(s, r.value)
    ensures r.None? <==> forall j :: 0 <= j < |s| ==> !s[j]
  {
    if |s| == 0 then None
    else if s[0] then Some(0)
    else match FirstTrue(s[1..])
      case None => None
      case Some(k) => Some(k + 1)
  }

  /** The scan finds exactly the first true position. */
  lemma {:induction false} FirstTrueFindsFirstIndex(s: seq<bool>, k: nat)
    requires IsFirstIndex(s, k)
    ensures FirstTrue(s) == Some(k)
  {
    if k > 0 {
      assert !s[0];
      assert IsFirstIndex(s[1..], k - 1) by {
        assert forall j :: 0 <= j < k - 1 ==> s[1..][j] == s[j + 1];
      }
      FirstTrueFindsFirstIndex(s[1..], k - 1);
    }
  }

  // ---------------------------------------------------------------------------------------
  // Queue families

  predicate IsGraphicsFamily(p: QueueFamilyProperties)
  {
    p.queueFlags & QueueGraphicsBit != 0
  }

  /** Per family: does it advertise graphics? */
  function GraphicsMask(queueProps: seq<QueueFamilyProperties>): seq<bool>
  {
    seq(|queueProps|, i requires 0 <= i < |queueProps| => IsGraphicsFamily(queueProps[i]))
  }

  /** Per family: did the driver answer VK_TRUE to "can it present to the surface"? */
  function PresentMask(supportsPresent: seq<Bool32>): seq<bool>
  {
    seq(|supportsPresent|, i requires 0 <= i < |supportsPresent| => supportsPresent[i] == True32)
  }

  /** Per family: both graphics and present. */
  function SharedMask(queueProps: seq<QueueFamilyProperties>, supportsPresent: seq<Bool32>): seq<bool>
    requires |supportsPresent| == |queueProps|
  {
    seq(|queueProps|, i requires 0 <= i < |queueProps| =>
      IsGraphicsFamily(queueProps[i]) && supportsPresent[i] == True32)
  }

  /** The graphics family index `initSurface` settles on: the first family that does both
      graphics and present, otherwise the first graphics family. */
  function GraphicsQueueNodeIndex(queueProps: seq<QueueFamilyProperties>, supportsPresent: seq<Bool32>): Option<nat>
    requires |supportsPresent| == |queueProps|
  {
    match FirstTrue(SharedMask(queueProps, supportsPresent))
    case Some(i) => Some(i)
    case None => FirstTrue(GraphicsMask(queueProps))
  }

  /** The present family index `initSurface` settles on: the first family that does both
      graphics and present, otherwise the first present-capable family. */
  function PresentQueueNodeIndex(queueProps: seq<QueueFamilyProperties>, supportsPresent: seq<Bool32>): Option<nat>
    requires |supportsPresent| == |queueProps|
  {
    match FirstTrue(SharedMask(queueProps, supportsPresent))
    case Some(i) => Some(i)
    case None => FirstTrue(PresentMask(supportsPresent))
  }

  datatype QueueFamilyChoice = QueueFamilyChoice(graphics: nat, present: nat)

  /** The outcome of the queue-family search: both indices, or nothing when either is missing. */
  function SelectQueueFamilies(queueProps: seq<QueueFamilyProperties>, supportsPresent: seq<Bool32>): Option<QueueFamilyChoice>
    requires |supportsPresent| == |queueProps|
  {
    var g := GraphicsQueueNodeIndex(queueProps, supportsPresent);
    var p := PresentQueueNodeIndex(queueProps, supportsPresent);
    if g.Some? && p.Some? then Some(QueueFamilyChoice(g.value, p.value)) else None
  }

  /** A found index as the source stores it, with UINT32_MAX for "not found". */
  function OrNotFound(o: Option<nat>): uint32
    requires o.Some? ==> o.value < Uint32Max
  {
    if o.Some? then o.value else Uint32Max
  }

  /** The two search loops of `initSurface`. The first scans the families once, remembering
      the first graphics family and stopping at the first one that also presents; the second
      runs only when no such family exists and looks for any present-capable family.
      UINT32_MAX marks an index that was not found. */
  method FindQueueFamilies(queueProps: seq<QueueFamilyProperties>, supportsPresent: seq<Bool32>)
    returns (graphicsQueueNodeIndex: uint32, presentQueueNodeIndex: uint32)
    requires |supportsPresent| == |queueProps| <= Uint32Max
    ensures graphicsQueueNodeIndex == OrNotFound(GraphicsQueueNodeIndex(queueProps, supportsPresent))
    ensures presentQueueNodeIndex == OrNotFound(PresentQueueNodeIndex(queueProps, supportsPresent))
  {
    ghost var graphics, present, shared := GraphicsMask(queueProps), PresentMask(supportsPresent), SharedMask(queueProps, supportsPresent);
    graphicsQueueNodeIndex := Uint32Max;
    presentQueueNodeIndex := Uint32Max;
    var queueCount := |queueProps|;
    var i := 0;
    while i < queueCount
      invariant 0 <= i <= queueCount
      invariant presentQueueNodeIndex == Uint32Max
      invariant forall j :: 0 <= j < i ==> !shared[j]
      invariant graphicsQueueNodeIndex == Uint32Max ==> forall j :: 0 <= j < i ==> !graphics[j]
      invariant graphicsQueueNodeIndex != Uint32Max ==> IsFirstIndex(graphics, graphicsQueueNodeIndex) && graphicsQueueNodeIndex < i
    {
      if queueProps[i].queueFlags & QueueGraphicsBit != 0 {
        if graphicsQueueNodeIndex == Uint32Max {
          graphicsQueueNodeIndex := i;
        }
        if supportsPresent[i] == True32 {
          graphicsQueueNodeIndex := i;
          presentQueueNodeIndex := i;
          break;
        }
      }
      i := i + 1;
    }
    if presentQueueNodeIndex != Uint32Max {
      FirstTrueFindsFirstIndex(shared, presentQueueNodeIndex);
    } else {
      assert FirstTrue(shared).None?;
      if graphicsQueueNodeIndex != Uint32Max {
        FirstTrueFindsFirstIndex(graphics, graphicsQueueNodeIndex);
      }
      var k := 0;
      while k < queueCount
        invariant 0 <= k <= queueCount
        invariant forall j :: 0 <= j < k ==> !present[j]
      {
        if supportsPresent[k] == True32 {
          presentQueueNodeIndex := k;
          break;
        }
        k := k + 1;
      }
      if presentQueueNodeIndex != Uint32Max {
        FirstTrueFindsFirstIndex(present, presentQueueNodeIndex);
      }
    }
  }

  /** The queue search fails exactly when no family does graphics or no family can present. */
  lemma QueueSelectionFailsIff(queueProps: seq<QueueFamilyProperties>, supportsPresent: seq<Bool32>)
    requires |supportsPresent| == |queueProps|
    ensures SelectQueueFamilies(queueProps, supportsPresent).None? <==>
      (forall i :: 0 <= i < |queueProps| ==> !IsGraphicsFamily(queueProps[i])) ||
      (forall i :: 0 <= i < |supportsPresent| ==> supportsPresent[i] != True32)
  {
    var shared := SharedMask(queueProps, supportsPresent);
    var graphics, present := GraphicsMask(queueProps), PresentMask(supportsPresent);
    assert forall i :: 0 <= i < |queueProps| ==> graphics[i] == IsGraphicsFamily(queueProps[i]);
    assert forall i :: 0 <= i < |supportsPresent| ==> present[i] == (supportsPresent[i] == True32);
    match FirstTrue(shared)
    case Some(i) =>
      assert graphics[i] && present[i];
    case None =>
  }

  /** A successful search names a graphics family and a present-capable family. */
  lemma QueueSelectionCapable(queueProps: seq<QueueFamilyProperties>, supportsPresent: seq<Bool32>)
    requires |supportsPresent| == |queueProps|
    requires SelectQueueFamilies(queueProps, supportsPresent).Some?
    ensures var c := SelectQueueFamilies(queueProps, supportsPresent).value;
      c.graphics < |queueProps| && IsGraphicsFamily(queueProps[c.graphics]) &&
      c.present < |queueProps| && supportsPresent[c.present] == True32
  {
    var shared := SharedMask(queueProps, supportsPresent);
    if FirstTrue(shared).Some? {
      assert shared[FirstTrue(shared).value];
    }
  }

  /** When some graphics family can present, both indices are the first such family;
      otherwise the graphics index is the first graphics family, the present index the first
      present-capable family, and the two differ. */
  lemma QueueSelectionPrefersSharedFamily(queueProps: seq<QueueFamilyProperties>, supportsPresent: seq<Bool32>)
    requires |supportsPresent| == |queueProps|
    ensures var g, p := GraphicsQueueNodeIndex(queueProps, supportsPresent), PresentQueueNodeIndex(queueProps, supportsPresent);
      ((exists i :: 0 <= i < |queueProps| && IsGraphicsFamily(queueProps[i]) && supportsPresent[i] == True32) ==>
        g.Some? && g == p && IsFirstIndex(SharedMask(queueProps, supportsPresent), g.value)) &&
      ((forall i :: 0 <= i < |queueProps| ==> !(IsGraphicsFamily(queueProps[i]) && supportsPresent[i] == True32)) ==>
        (g.Some? ==> IsFirstIndex(GraphicsMask(queueProps), g.value)) &&
        (g.None? <==> forall i :: 0 <= i < |queueProps| ==> !IsGraphicsFamily(queueProps[i])) &&
        (p.Some? ==> IsFirstIndex(PresentMask(supportsPresent), p.value)) &&
        (p.None? <==> forall i :: 0 <= i < |supportsPresent| ==> supportsPresent[i] != True32) &&
        (g.Some? && p.Some? ==> g != p))
  {
    var shared := SharedMask(queueProps, supportsPresent);
    var graphics, present := GraphicsMask(queueProps), PresentMask(supportsPresent);
    assert forall i :: 0 <= i < |queueProps| ==> graphics[i] == IsGraphicsFamily(queueProps[i]);
    assert forall i :: 0 <= i < |supportsPresent| ==> present[i] == (supportsPresent[i] == True32);
    assert forall i :: 0 <= i < |queueProps| ==> shared[i] == (graphics[i] && present[i]);
    if exists i :: 0 <= i < |queueProps| && IsGraphicsFamily(queueProps[i]) && supportsPresent[i] == True32 {
      var i :| 0 <= i < |queueProps| && IsGraphicsFamily(queueProps[i]) && supportsPresent[i] == True32;
      assert shared[i];
    } else {
      assert FirstTrue(shared).None?;
    }
  }

  // ---------------------------------------------------------------------------------------
  // Surface format

  /** The formats `initSurface` prefers, in the order the source lists them. */
  const PreferredImageFormats: seq<Format> := [FormatB8G8R8A8Unorm, FormatR8G8B8A8Unorm, FormatA8B8G8R8UnormPack32]

  function PreferredMask(surfaceFormats: seq<SurfaceFormat>): seq<bool>
  {
    seq(|surfaceFormats|, i requires 0 <= i < |surfaceFormats| => surfaceFormats[i].format in PreferredImageFormats)
  }

  /** The position, in the surface's own list, of the entry `initSurface` selects. */
  function ChosenFormatIndex(surfaceFormats: seq<SurfaceFormat>): (k: nat)
    requires |surfaceFormats| > 0
    ensures k < |surfaceFormats|
  {
    match FirstTrue(PreferredMask(surfaceFormats))
    case Some(i) => i
    case None => 0
  }

  /** The surface format `initSurface` selects; colorFormat and colorSpace are both taken from it. */
  function ChosenSurfaceFormat(surfaceFormats: seq<SurfaceFormat>): SurfaceFormat
    requires |surfaceFormats| > 0
  {
    surfaceFormats[ChosenFormatIndex(surfaceFormats)]
  }

  /** The search loop of `initSurface` over the surface formats: start from the first entry
      and stop at the first entry whose format is one of the preferred ones. */
  method SelectSurfaceFormat(surfaceFormats: seq<SurfaceFormat>) returns (selectedFormat: SurfaceFormat)
    requires |surfaceFormats| > 0
    ensures selectedFormat == ChosenSurfaceFormat(surfaceFormats)
  {
    ghost var preferred := PreferredMask(surfaceFormats);
    selectedFormat := surfaceFormats[0];
    var i := 0;
    while i < |surfaceFormats|
      invariant 0 <= i <= |surfaceFormats|
      invariant selectedFormat == surfaceFormats[0]
      invariant forall j :: 0 <= j < i ==> !preferred[j]
    {
      if surfaceFormats[i].format in PreferredImageFormats {
        selectedFormat := surfaceFormats[i];
        FirstTrueFindsFirstIndex(preferred, i);
        return;
      }
      i := i + 1;
    }
  }

  /** The selected entry is the first one, in the surface's order, with a preferred format;
      if no entry has one, it is the surface's first entry. */
  lemma SurfaceFormatChoice(surfaceFormats: seq<SurfaceFormat>)
    requires |surfaceFormats| > 0
    ensures var k := ChosenFormatIndex(surfaceFormats);
      ChosenSurfaceFormat(surfaceFormats) == surfaceFormats[k] &&
      (forall j :: 0 <= j < k ==> surfaceFormats[j].format !in PreferredImageFormats) &&
      ((exists j :: 0 <= j < |surfaceFormats| && surfaceFormats[j].format in PreferredImageFormats) ==>
        surfaceFormats[k].format in PreferredImageFormats) &&
      ((forall j :: 0 <= j < |surfaceFormats| ==> surfaceFormats[j].format !in PreferredImageFormats) ==> k == 0)
  {
    var preferred := PreferredMask(surfaceFormats);
    assert forall j :: 0 <= j < |surfaceFormats| ==> preferred[j] == (surfaceFormats[j].format in PreferredImageFormats);
    if exists j :: 0 <= j < |surfaceFormats| && surfaceFormats[j].format in PreferredImageFormats {
      var j :| 0 <= j < |surfaceFormats| && surfaceFormats[j].format in PreferredImageFormats;
      assert preferred[j];
    }
  }

  /** The surface's order wins over the preference list's order: a surface that lists
      RGBA8 before BGRA8 gets RGBA8, although BGRA8 heads the preference list. */
  lemma SurfaceOrderBeatsPreferenceOrder(cs: ColorSpace)
    ensures ChosenSurfaceFormat([SurfaceFormat(FormatR8G8B8A8Unorm, cs), SurfaceFormat(FormatB8G8R8A8Unorm, cs)]).format
      == FormatR8G8B8A8Unorm
  {
    var fs := [SurfaceFormat(FormatR8G8B8A8Unorm, cs), SurfaceFormat(FormatB8G8R8A8Unorm, cs)];
    assert PreferredMask(fs)[0];
  }

  // ---------------------------------------------------------------------------------------
  // Extent

  /** The extent the swap chain is created with, and the values written back through the
      caller's `width` and `height`. */
  datatype ExtentResolution = ExtentResolution(extent: Extent2D, width: uint32, height: uint32)

  /** `create`'s extent rule: a current width of 0xFFFFFFFF (only the width is tested) leaves
      the size to the caller; otherwise the surface's current extent is used and reported
      back to the caller. */
  function ResolveExtent(surfCaps: SurfaceCapabilities, width: uint32, height: uint32): (r: ExtentResolution)
    ensures r.width == r.extent.width && r.height == r.extent.height
    ensures surfCaps.currentExtent.width == Uint32Max ==> r.width == width && r.height == height
    ensures surfCaps.currentExtent.width != Uint32Max ==> r.extent == surfCaps.currentExtent
  {
    if surfCaps.currentExtent.width == Uint32Max then
      ExtentResolution(Extent2D(width, height), width, height)
    else
      ExtentResolution(surfCaps.currentExtent, surfCaps.currentExtent.width, surfCaps.currentExtent.height)
  }

  /** Feeding the written-back size into a second `create` against the same surface resolves
      to the same extent and leaves the size alone. */
  lemma ResolveExtentStable(surfCaps: SurfaceCapabilities, width: uint32, height: uint32)
    ensures var r := ResolveExtent(surfCaps, width, height);
      ResolveExtent(surfCaps, r.width, r.height) == r
  {
  }

  // ---------------------------------------------------------------------------------------
  // Present mode

  /** The present mode `create` ends up with. FIFO is the default; without v-sync MAILBOX is
      taken when the surface reports it. The IMMEDIATE branch of the source never fires, so
      IMMEDIATE does not occur here. */
  function ChosenPresentMode(presentModes: seq<PresentMode>, vsync: bool): (mode: PresentMode)
  {
    if !vsync && PresentModeMailbox in presentModes then PresentModeMailbox else PresentModeFifo
  }

  /** The present-mode loop of `create`, on its own copy of the reported modes. The test for
      IMMEDIATE is an assignment: it stores IMMEDIATE (the value 0) into the entry just
      examined and then tests that 0, so its branch is never taken. */
  method SelectPresentMode(presentModes: seq<PresentMode>, vsync: bool) returns (swapchainPresentMode: PresentMode)
    ensures swapchainPresentMode == ChosenPresentMode(presentModes, vsync)
  {
    var modes := new PresentMode[|presentModes|](i requires 0 <= i < |presentModes| => presentModes[i]);
    swapchainPresentMode := PresentModeFifo;
    if !vsync {
      var i := 0;
      while i < modes.Length
        invariant 0 <= i <= modes.Length
        invariant modes[i..] == presentModes[i..]
        invariant forall j :: 0 <= j < i ==> presentModes[j] != PresentModeMailbox
        invariant swapchainPresentMode == PresentModeFifo
      {
        if modes[i] == PresentModeMailbox {
          swapchainPresentMode := PresentModeMailbox;
          break;
        }
        modes[i] := PresentModeImmediate;
        if modes[i] != 0 {
          swapchainPresentMode := PresentModeImmediate;
        }
        i := i + 1;
      }
    }
  }

  /** What the present-mode rule guarantees: the mode is FIFO or MAILBOX, never IMMEDIATE;
      it is MAILBOX exactly when v-sync is off and MAILBOX is reported. */
  lemma PresentModeChoice(presentModes: seq<PresentMode>, vsync: bool)
    ensures var mode := ChosenPresentMode(presentModes, vsync);
      (mode == PresentModeFifo || mode == PresentModeMailbox) &&
      mode != PresentModeImmediate &&
      (mode == PresentModeMailbox <==> !vsync && PresentModeMailbox in presentModes) &&
      (vsync ==> mode == PresentModeFifo)
  {
  }

  /** IMMEDIATE is not taken even when it is the only mode besides FIFO and v-sync is off. */
  lemma ImmediateNeverChosen()
    ensures ChosenPresentMode([PresentModeFifo, PresentModeImmediate], false) == PresentModeFifo
  {
    assert PresentModeMailbox !in [PresentModeFifo, PresentModeImmediate];
  }

  // ---------------------------------------------------------------------------------------
  // Image count, usage, pre-transform and composite alpha

  /** `minImageCount + 1` in 32-bit unsigned arithmetic, with no clamp to `maxImageCount`. */
  function DesiredImageCount(surfCaps: SurfaceCapabilities): (n: uint32)
    ensures surfCaps.minImageCount < Uint32Max ==> n == surfCaps.minImageCount + 1
    ensures surfCaps.minImageCount == Uint32Max ==> n == 0
  {
    (surfCaps.minImageCount + 1) % 0x1_0000_0000
  }

  /** Without a clamp the request exceeds a nonzero `maxImageCount` that equals
      `minImageCount`: with minImageCount = maxImageCount = 2 the swap chain asks for 3. */
  lemma ImageCountNotClamped(surfCaps: SurfaceCapabilities)
    requires surfCaps.maxImageCount != 0 && surfCaps.minImageCount == surfCaps.maxImageCount < Uint32Max
    ensures DesiredImageCount(surfCaps) == surfCaps.maxImageCount + 1
  {
  }

  /** The image usage of the swap chain images: color attachment always, transfer source and
      destination when the surface supports them. */
  function SwapchainImageUsage(supportedUsageFlags: Flags): Flags
  {
    var usage := ImageUsageColorAttachmentBit;
    var usage := if supportedUsageFlags & ImageUsageTransferSrcBit != 0 then usage | ImageUsageTransferSrcBit else usage;
    if supportedUsageFlags & ImageUsageTransferDstBit != 0 then usage | ImageUsageTransferDstBit else usage
  }

  /** The usage always holds COLOR_ATTACHMENT, holds TRANSFER_SRC and TRANSFER_DST exactly
      when the surface supports them, and holds no other bit. */
  lemma ImageUsageChoice(supportedUsageFlags: Flags)
    ensures var usage := SwapchainImageUsage(supportedUsageFlags);
      usage & ImageUsageColorAttachmentBit != 0 &&
      (usage & ImageUsageTransferSrcBit != 0 <==> supportedUsageFlags & ImageUsageTransferSrcBit != 0) &&
      (usage & ImageUsageTransferDstBit != 0 <==> supportedUsageFlags & ImageUsageTransferDstBit != 0) &&
      usage & !(ImageUsageColorAttachmentBit | ImageUsageTransferSrcBit | ImageUsageTransferDstBit) == 0
  {
  }

  /** IDENTITY when the surface supports it, else the surface's current transform. */
  function ChosenPreTransform(surfCaps: SurfaceCapabilities): (t: Flags)
    ensures t == SurfaceTransformIdentityBit || t == surfCaps.currentTransform
  {
    if surfCaps.supportedTransforms & SurfaceTransformIdentityBit != 0 then SurfaceTransformIdentityBit
    else surfCaps.currentTransform
  }

  /** IDENTITY wins whenever it is supported, and the chosen transform is a supported one
      whenever the surface's current transform is. */
  lemma PreTransformChoice(surfCaps: SurfaceCapabilities)
    ensures surfCaps.supportedTransforms & SurfaceTransformIdentityBit != 0 ==>
      ChosenPreTransform(surfCaps) == SurfaceTransformIdentityBit
    ensures surfCaps.supportedTransforms & SurfaceTransformIdentityBit == 0 ==>
      ChosenPreTransform(surfCaps) == surfCaps.currentTransform
    ensures surfCaps.currentTransform & surfCaps.supportedTransforms == surfCaps.currentTransform ==>
      ChosenPreTransform(surfCaps) & surfCaps.supportedTransforms == ChosenPreTransform(surfCaps)
  {
  }

  /** The composite-alpha bits in the order `create` tries them. */
  const CompositeAlphaFlags: seq<Flags> := [CompositeAlphaOpaqueBit, CompositeAlphaPreMultipliedBit,
    CompositeAlphaPostMultipliedBit, CompositeAlphaInheritBit]

  /** The first supported composite alpha in the order OPAQUE, PRE_MULTIPLIED,
      POST_MULTIPLIED, INHERIT, or OPAQUE when none of them is supported. */
  function ChosenCompositeAlpha(supportedCompositeAlpha: Flags): Flags
  {
    if supportedCompositeAlpha & CompositeAlphaOpaqueBit != 0 then CompositeAlphaOpaqueBit
    else if supportedCompositeAlpha & CompositeAlphaPreMultipliedBit != 0 then CompositeAlphaPreMultipliedBit
    else if supportedCompositeAlpha & CompositeAlphaPostMultipliedBit != 0 then CompositeAlphaPostMultipliedBit
    else if supportedCompositeAlpha & CompositeAlphaInheritBit != 0 then CompositeAlphaInheritBit
    else CompositeAlphaOpaqueBit
  }

  /** The composite-alpha loop of `create`: start from OPAQUE and stop at the first
      supported bit of the preference list. */
  method SelectCompositeAlpha(supportedCompositeAlpha: Flags) returns (compositeAlpha: Flags)
    ensures compositeAlpha == ChosenCompositeAlpha(supportedCompositeAlpha)
  {
    compositeAlpha := CompositeAlphaOpaqueBit;
    var i := 0;
    while i < |CompositeAlphaFlags|
      invariant 0 <= i <= |CompositeAlphaFlags|
      invariant compositeAlpha == CompositeAlphaOpaqueBit
      invariant i > 0 ==> supportedCompositeAlpha & CompositeAlphaOpaqueBit == 0
      invariant i > 1 ==> supportedCompositeAlpha & CompositeAlphaPreMultipliedBit == 0
      invariant i > 2 ==> supportedCompositeAlpha & CompositeAlphaPostMultipliedBit == 0
      invariant i > 3 ==> supportedCompositeAlpha & CompositeAlphaInheritBit == 0
    {
      var compositeAlphaFlag := CompositeAlphaFlags[i];
      if supportedCompositeAlpha & compositeAlphaFlag != 0 {
        compositeAlpha := compositeAlphaFlag;
        return;
      }
      i := i + 1;
    }
  }

  /** The composite alpha is one of the four bits; it is supported unless the surface
      supports none of the four, in which case it is OPAQUE; and every bit ahead of it in
      the preference order is unsupported. */
  lemma CompositeAlphaChoice(supportedCompositeAlpha: Flags)
    ensures var a := ChosenCompositeAlpha(supportedCompositeAlpha);
      a in CompositeAlphaFlags &&
      (supportedCompositeAlpha & 0xF == 0 ==> a == CompositeAlphaOpaqueBit) &&
      (supportedCompositeAlpha & 0xF != 0 ==> supportedCompositeAlpha & a != 0) &&
      (forall k :: 0 <= k < |CompositeAlphaFlags| && CompositeAlphaFlags[k] < a ==>
        supportedCompositeAlpha & CompositeAlphaFlags[k] == 0)
  {
  }
}
