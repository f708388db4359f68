/** The swap-chain object: its fields, `initSurface`, `set` and `create`. Driver calls are
    replaced by their results, passed in as parameters; every swap chain or image view that
    `create` makes or destroys through the driver is appended to a ghost log, in order. */
module SwapChain {
  import opened Vk
  import opened SwapChainRules

  /** A swap-chain image and the view created for it. */
  datatype SwapChainBuffer = SwapChainBuffer(image: Handle, view: Handle)

  function BufferViews(buffers: seq<SwapChainBuffer>): seq<Handle>
  {
    seq(|buffers|, i requires 0 <= i < |buffers| => buffers[i].view)
  }

  /** `std::vector::resize`: keep the first `n` elements, pad with `fill`. */
  function Resized<T>(s: seq<T>, n: nat, fill: T): (r: seq<T>)
    ensures |r| == n
    ensures forall i :: 0 <= i < n ==> r[i] == if i < |s| then s[i] else fill
  {
    if n <= |s| then s[..n] else s + seq(n - |s|, _ => fill)
  }

  // ---------------------------------------------------------------------------------------
  // What `create` hands to the driver

  /** Every component reads its own channel: the identity swizzle, spelled either as
      IDENTITY or as the channel's own swizzle. */
  ghost predicate IsIdentityMapping(c: ComponentMapping)
  {
    (c.r == ComponentSwizzleIdentity || c.r == ComponentSwizzleR) &&
    (c.g == ComponentSwizzleIdentity || c.g == ComponentSwizzleG) &&
    (c.b == ComponentSwizzleIdentity || c.b == ComponentSwizzleB) &&
    (c.a == ComponentSwizzleIdentity || c.a == ComponentSwizzleA)
  }

  /** A plain 2D color view of mip level 0 and array layer 0 only. */
  ghost predicate IsSingleColorView2D(info: ImageViewCreateInfo)
  {
    info.viewType == ImageViewType2D &&
    info.flags == 0 &&
    IsIdentityMapping(info.components) &&
    info.subresourceRange.aspectMask == ImageAspectColorBit &&
    info.subresourceRange.baseMipLevel == 0 && info.subresourceRange.levelCount == 1 &&
    info.subresourceRange.baseArrayLayer == 0 && info.subresourceRange.layerCount == 1
  }

  /** The view `create` requests for one swap-chain image. Its structure type is the one the
      source writes, VK_STRUCTURE_TYPE_IMAGE_VIEW_USAGE_CREATE_INFO. */
  function ColorAttachmentViewInfo(colorFormat: Format, image: Handle): (info: ImageViewCreateInfo)
    ensures IsSingleColorView2D(info) && info.image == image && info.format == colorFormat
  {
    ImageViewCreateInfo(
      sType := StructureTypeImageViewUsageCreateInfo,
      flags := 0,
      image := image,
      viewType := ImageViewType2D,
      format := colorFormat,
      components := ComponentMapping(ComponentSwizzleR, ComponentSwizzleG, ComponentSwizzleB, ComponentSwizzleA),
      subresourceRange := SubresourceRange(ImageAspectColorBit, 0, 1, 0, 1))
  }

  /** The swap-chain creation request `create` builds from the surface state and the
      selection rules. */
  function SwapchainCreateInfoFor(surface: Handle, colorFormat: Format, colorSpace: ColorSpace,
                                  surfCaps: SurfaceCapabilities, extent: Extent2D,
                                  presentMode: PresentMode, compositeAlpha: Flags,
                                  oldSwapchain: Handle): SwapchainCreateInfo
  {
    SwapchainCreateInfo(
      sType := StructureTypeSwapchainCreateInfo,
      surface := surface,
      minImageCount := DesiredImageCount(surfCaps),
      imageFormat := colorFormat,
      imageColorSpace := colorSpace,
      imageExtent := extent,
      imageUsage := SwapchainImageUsage(surfCaps.supportedUsageFlags),
      preTransform := ChosenPreTransform(surfCaps),
      imageArrayLayers := 1,
      imageSharingMode := SharingModeExclusive,
      queueFamilyIndexCount := 0,
      presentMode := presentMode,
      oldSwapchain := oldSwapchain,
      clipped := True32,
      compositeAlpha := compositeAlpha)
  }

  /** The request `create` makes for the given surface state and inputs. */
  function CreateRequest(surface: Handle, colorFormat: Format, colorSpace: ColorSpace,
                         surfCaps: SurfaceCapabilities, presentModes: seq<PresentMode>,
                         width: uint32, height: uint32, vsync: bool, oldSwapchain: Handle): SwapchainCreateInfo
  {
    SwapchainCreateInfoFor(surface, colorFormat, colorSpace, surfCaps,
      ResolveExtent(surfCaps, width, height).extent, ChosenPresentMode(presentModes, vsync),
      ChosenCompositeAlpha(surfCaps.supportedCompositeAlpha), oldSwapchain)
  }

  /** The request carries the previous handle as `oldSwapchain` and the outcome of every
      selection rule. */
  lemma CreateRequestFollowsRules(surface: Handle, colorFormat: Format, colorSpace: ColorSpace,
                                  surfCaps: SurfaceCapabilities, presentModes: seq<PresentMode>,
                                  width: uint32, height: uint32, vsync: bool, oldSwapchain: Handle)
    ensures var info := CreateRequest(surface, colorFormat, colorSpace, surfCaps, presentModes, width, height, vsync, oldSwapchain);
      info.oldSwapchain == oldSwapchain &&
      info.surface == surface && info.imageFormat == colorFormat && info.imageColorSpace == colorSpace &&
      info.presentMode != PresentModeImmediate &&
      (vsync ==> info.presentMode == PresentModeFifo) &&
      info.imageUsage & ImageUsageColorAttachmentBit != 0 &&
      (surfCaps.minImageCount < Uint32Max ==> info.minImageCount == surfCaps.minImageCount + 1) &&
      (surfCaps.currentExtent.width != Uint32Max ==> info.imageExtent == surfCaps.currentExtent) &&
      (surfCaps.currentExtent.width == Uint32Max ==> info.imageExtent == Extent2D(width, height)) &&
      info.imageArrayLayers == 1 && info.clipped == True32
  {
    PresentModeChoice(presentModes, vsync);
  }

  // ---------------------------------------------------------------------------------------
  // The driver calls `create` issues

  /** One destroy call per old view, in the order of the buffers. */
  function ViewDestroyEvents(views: seq<Handle>): (events: seq<Event>)
    ensures |events| == |views|
    ensures forall i :: 0 <= i < |views| ==> events[i] == ImageViewDestroyed(views[i])
  {
    if views == [] then [] else [ImageViewDestroyed(views[0])] + ViewDestroyEvents(views[1..])
  }

  /** Tearing down the previous swap chain: nothing when there was none, otherwise its views
      and then its handle. */
  function TeardownEvents(oldSwapchain: Handle, oldViews: seq<Handle>): seq<Event>
  {
    if oldSwapchain == NullHandle then [] else ViewDestroyEvents(oldViews) + [SwapchainDestroyed(oldSwapchain)]
  }

  /** One view creation per new image, in image order. */
  function ViewCreateEvents(colorFormat: Format, images: seq<Handle>, views: seq<Handle>): (events: seq<Event>)
    requires |views| == |images|
    ensures |events| == |images|
    ensures forall i :: 0 <= i < |images| ==>
      events[i] == ImageViewCreated(ColorAttachmentViewInfo(colorFormat, images[i]), views[i])
  {
    if images == [] then []
    else
      [ImageViewCreated(ColorAttachmentViewInfo(colorFormat, images[0]), views[0])]
        + ViewCreateEvents(colorFormat, images[1..], views[1..])
  }

  /** The whole sequence of creations and destructions one `create` issues. */
  function CreateEvents(request: SwapchainCreateInfo, newSwapchain: Handle, oldViews: seq<Handle>,
                        colorFormat: Format, images: seq<Handle>, views: seq<Handle>): seq<Event>
    requires |views| == |images|
  {
    [SwapchainCreated(request, newSwapchain)]
      + TeardownEvents(request.oldSwapchain, oldViews)
      + ViewCreateEvents(colorFormat, images, views)
  }

  /** Recreation order: the new chain is created first (with the old handle as
      `oldSwapchain`), then every old view is destroyed, then the old handle, and only then
      are the new views created. */
  lemma RecreationOrder(request: SwapchainCreateInfo, newSwapchain: Handle, oldViews: seq<Handle>,
                        colorFormat: Format, images: seq<Handle>, views: seq<Handle>)
    requires |views| == |images|
    requires request.oldSwapchain != NullHandle
    ensures var events := CreateEvents(request, newSwapchain, oldViews, colorFormat, images, views);
      var k := |oldViews|;
      |events| == k + 2 + |images| &&
      events[0] == SwapchainCreated(request, newSwapchain) &&
      (forall i :: 0 <= i < k ==> events[1 + i] == ImageViewDestroyed(oldViews[i])) &&
      events[k + 1] == SwapchainDestroyed(request.oldSwapchain) &&
      (forall i :: 0 <= i < |images| ==>
        events[k + 2 + i] == ImageViewCreated(ColorAttachmentViewInfo(colorFormat, images[i]), views[i]))
  {
    var events := CreateEvents(request, newSwapchain, oldViews, colorFormat, images, views);
    var teardown := ViewDestroyEvents(oldViews) + [SwapchainDestroyed(request.oldSwapchain)];
    assert events == [SwapchainCreated(request, newSwapchain)] + teardown + ViewCreateEvents(colorFormat, images, views);
    forall i | 0 <= i < |oldViews|
      ensures events[1 + i] == ImageViewDestroyed(oldViews[i])
    {
      assert events[1 + i] == teardown[i];
    }
    forall i | 0 <= i < |images|
      ensures events[|oldViews| + 2 + i] == ImageViewCreated(ColorAttachmentViewInfo(colorFormat, images[i]), views[i])
    {
      assert events[|oldViews| + 2 + i] == ViewCreateEvents(colorFormat, images, views)[i];
    }
  }

  /** Where each kind of call sits in the sequence of one `create`: the swap-chain creation
      first, then the `k` destructions of the teardown (the old handle last among them), then
      only view creations. */
  lemma {:induction false} EventPositions(request: SwapchainCreateInfo, newSwapchain: Handle, oldViews: seq<Handle>,
                                          colorFormat: Format, images: seq<Handle>, views: seq<Handle>)
    requires |views| == |images|
    ensures var events := CreateEvents(request, newSwapchain, oldViews, colorFormat, images, views);
      var k := |TeardownEvents(request.oldSwapchain, oldViews)|;
      k < |events| &&
      forall i :: 0 <= i < |events| ==>
        (events[i].SwapchainCreated? <==> i == 0) &&
        (events[i].IsDestroy() <==> 0 < i <= k) &&
        (events[i].SwapchainDestroyed? ==> i == k)
  {
    var events := CreateEvents(request, newSwapchain, oldViews, colorFormat, images, views);
    var k := |TeardownEvents(request.oldSwapchain, oldViews)|;
    var created := ViewCreateEvents(colorFormat, images, views);
    assert forall i :: k < i < |events| ==> events[i] == created[i - k - 1];
    if request.oldSwapchain != NullHandle {
      RecreationOrder(request, newSwapchain, oldViews, colorFormat, images, views);
    }
  }

  /** Ordering of one `create`, position-free: no destruction precedes the creation of the
      new chain, none follows a view creation, and no view is destroyed after the old
      handle. */
  lemma TeardownOrdering(request: SwapchainCreateInfo, newSwapchain: Handle, oldViews: seq<Handle>,
                         colorFormat: Format, images: seq<Handle>, views: seq<Handle>)
    requires |views| == |images|
    ensures var events := CreateEvents(request, newSwapchain, oldViews, colorFormat, images, views);
      (forall i, j :: 0 <= i < j < |events| && events[j].SwapchainCreated? ==> !events[i].IsDestroy()) &&
      (forall i, j :: 0 <= i < j < |events| && events[i].ImageViewCreated? ==> !events[j].IsDestroy()) &&
      (forall i, j :: 0 <= i < j < |events| && events[i].SwapchainDestroyed? ==> !events[j].ImageViewDestroyed?)
  {
    EventPositions(request, newSwapchain, oldViews, colorFormat, images, views);
  }

  /** On the first `create` (no previous handle) nothing is destroyed. */
  lemma FirstCreateDestroysNothing(request: SwapchainCreateInfo, newSwapchain: Handle, oldViews: seq<Handle>,
                                   colorFormat: Format, images: seq<Handle>, views: seq<Handle>)
    requires |views| == |images|
    requires request.oldSwapchain == NullHandle
    ensures var events := CreateEvents(request, newSwapchain, oldViews, colorFormat, images, views);
      forall e :: e in events ==> !e.IsDestroy()
  {
    var events := CreateEvents(request, newSwapchain, oldViews, colorFormat, images, views);
    var created := ViewCreateEvents(colorFormat, images, views);
    assert events == [SwapchainCreated(request, newSwapchain)] + created;
    forall e | e in events
      ensures !e.IsDestroy()
    {
      if e != SwapchainCreated(request, newSwapchain) {
        var i :| 0 <= i < |created| && created[i] == e;
      }
    }
  }

  lemma AppendAssociates<T>(a: seq<T>, b: seq<T>, c: seq<T>, d: seq<T>)
    ensures a + b + c + d == a + (b + c + d)
  {
  }

  // ---------------------------------------------------------------------------------------
  // The swap-chain object

  class VulkanSwapChain {
    var instance: Handle
    var device: Handle
    var physicalDevice: Handle
    var surface: Handle

    var colorFormat: Format
    var colorSpace: ColorSpace
    var swapChain: Handle
    var imageCount: uint32
    var images: seq<Handle>
    var buffers: seq<SwapChainBuffer>
    var queueNodeIndex: uint32

    /** The swap chains and image views created and destroyed through the driver, in order. */
    ghost var log: seq<Event>

    /** Once a swap chain exists, there is one buffer per image of it: the teardown in
        `create` reads `imageCount` buffers. */
    ghost predicate Valid()
      reads this`swapChain, this`buffers, this`imageCount
    {
      swapChain != NullHandle ==> |buffers| == imageCount
    }

    /** The member initialisers: no swap chain and no queue family yet. The fields the source
        leaves uninitialised start as null handles and zeros. */
    constructor ()
      ensures Valid()
      ensures swapChain == NullHandle && queueNodeIndex == Uint32Max
      ensures images == [] && buffers == [] && log == []
    {
      instance, device, physicalDevice, surface := NullHandle, NullHandle, NullHandle, NullHandle;
      colorFormat, colorSpace := FormatUndefined, 0;
      swapChain := NullHandle;
      imageCount := 0;
      images, buffers := [], [];
      queueNodeIndex := Uint32Max;
      log := [];
    }

    /** Records the instance, physical device and logical device to use. */
    method Set(newInstance: Handle, newPhysicalDevice: Handle, newDevice: Handle)
      modifies this`instance, this`physicalDevice, this`device
      ensures instance == newInstance && physicalDevice == newPhysicalDevice && device == newDevice
    {
      instance := newInstance;
      physicalDevice := newPhysicalDevice;
      device := newDevice;
    }

    /** Binds the window surface, then picks the queue family and the surface format.
        `surfaceResult` and `windowSurface` are what the window system returned for the
        surface; `queueProps`, `supportsPresent` and `surfaceFormats` are the driver's
        answers. If the surface could not be made, or no graphics or no present-capable family
        exists, the queue family and the format stay as they were. */
    method InitSurface(surfaceResult: Result, windowSurface: Handle,
                       queueProps: seq<QueueFamilyProperties>, supportsPresent: seq<Bool32>,
                       surfaceFormats: seq<SurfaceFormat>)
      requires |supportsPresent| == |queueProps| <= Uint32Max
      requires surfaceResult == Success && SelectQueueFamilies(queueProps, supportsPresent).Some? ==> |surfaceFormats| > 0
      modifies this`surface, this`queueNodeIndex, this`colorFormat, this`colorSpace
      ensures surface == windowSurface
      ensures var choice := SelectQueueFamilies(queueProps, supportsPresent);
        if surfaceResult == Success && choice.Some? then
          queueNodeIndex == choice.value.graphics &&
          colorFormat == ChosenSurfaceFormat(surfaceFormats).format &&
          colorSpace == ChosenSurfaceFormat(surfaceFormats).colorSpace
        else
          queueNodeIndex == old(queueNodeIndex) && colorFormat == old(colorFormat) && colorSpace == old(colorSpace)
    {
      surface := windowSurface;
      if surfaceResult != Success {
        return;
      }
      var graphicsQueueNodeIndex, presentQueueNodeIndex := FindQueueFamilies(queueProps, supportsPresent);
      if graphicsQueueNodeIndex == Uint32Max || presentQueueNodeIndex == Uint32Max {
        return;
      }
      queueNodeIndex := graphicsQueueNodeIndex;
      var selectedFormat := SelectSurfaceFormat(surfaceFormats);
      colorFormat := selectedFormat.format;
      colorSpace := selectedFormat.colorSpace;
    }

    /** Creates (or recreates) the swap chain. `width` and `height` are the caller's values,
        and `newWidth` and `newHeight` what is written back through the pointers.
        `surfCaps` and `presentModes` are the driver's answers for the surface;
        `newSwapChain` is the handle the driver creates, `swapchainImages` the images it
        reports for it and `imageViews` the views it creates for them, in order. */
    method Create(width: uint32, height: uint32, vsync: bool,
                  surfCaps: SurfaceCapabilities, presentModes: seq<PresentMode>,
                  newSwapChain: Handle, swapchainImages: seq<Handle>, imageViews: seq<Handle>)
      returns (newWidth: uint32, newHeight: uint32)
      requires Valid()
      requires |swapchainImages| <= Uint32Max
      requires |imageViews| == |swapchainImages|
      modifies this`swapChain, this`imageCount, this`images, this`buffers, this`log
      ensures Valid()
      ensures var resolved := ResolveExtent(surfCaps, width, height);
        newWidth == resolved.width && newHeight == resolved.height
      ensures swapChain == newSwapChain
      ensures imageCount == |swapchainImages| && images == swapchainImages
      ensures |buffers| == imageCount
      ensures forall i :: 0 <= i < imageCount ==> buffers[i] == SwapChainBuffer(swapchainImages[i], imageViews[i])
      ensures log == old(log) + CreateEvents(
        CreateRequest(surface, colorFormat, colorSpace, surfCaps, presentModes, width, height, vsync, old(swapChain)),
        newSwapChain, BufferViews(old(buffers)), colorFormat, swapchainImages, imageViews)
    {
      var swapchainCI;
      swapchainCI, newWidth, newHeight := SwapchainRequest(width, height, vsync, surfCaps, presentModes);
      ghost var oldViews := BufferViews(buffers);
      var oldSwapChain := swapChain;

      swapChain := newSwapChain;
      log := log + [SwapchainCreated(swapchainCI, newSwapChain)];

      DestroyOldSwapChain(oldSwapChain);
      FetchImagesAndCreateViews(swapchainImages, imageViews);
      AppendAssociates(old(log), [SwapchainCreated(swapchainCI, newSwapChain)], TeardownEvents(oldSwapChain, oldViews),
        ViewCreateEvents(colorFormat, swapchainImages, imageViews));
    }

    /** The negotiation step of `create`: resolve the extent (and what is written back to the
        caller), run the present-mode and composite-alpha searches, and fill in the creation
        request, with the current handle as `oldSwapchain`. */
    method SwapchainRequest(width: uint32, height: uint32, vsync: bool,
                            surfCaps: SurfaceCapabilities, presentModes: seq<PresentMode>)
      returns (swapchainCI: SwapchainCreateInfo, newWidth: uint32, newHeight: uint32)
      ensures swapchainCI == CreateRequest(surface, colorFormat, colorSpace, surfCaps, presentModes, width, height, vsync, swapChain)
      ensures var resolved := ResolveExtent(surfCaps, width, height);
        newWidth == resolved.width && newHeight == resolved.height
    {
      var resolved := ResolveExtent(surfCaps, width, height);
      newWidth, newHeight := resolved.width, resolved.height;
      var swapchainPresentMode := SelectPresentMode(presentModes, vsync);
      var compositeAlpha := SelectCompositeAlpha(surfCaps.supportedCompositeAlpha);
      swapchainCI := SwapchainCreateInfoFor(surface, colorFormat, colorSpace, surfCaps, resolved.extent,
        swapchainPresentMode, compositeAlpha, swapChain);
    }

    /** The teardown step of `create`: when there was a previous swap chain, destroy each of
        its `imageCount` views in order, then its handle; otherwise do nothing. */
    method DestroyOldSwapChain(oldSwapChain: Handle)
      requires oldSwapChain != NullHandle ==> |buffers| == imageCount
      modifies this`log
      ensures log == old(log) + TeardownEvents(oldSwapChain, BufferViews(buffers))
    {
      if oldSwapChain != NullHandle {
        ghost var oldViews := BufferViews(buffers);
        var i := 0;
        while i < imageCount
          invariant 0 <= i <= imageCount
          invariant log == old(log) + ViewDestroyEvents(oldViews[..i])
        {
          assert oldViews[..i + 1] == oldViews[..i] + [buffers[i].view];
          log := log + [ImageViewDestroyed(buffers[i].view)];
          i := i + 1;
        }
        assert oldViews[..imageCount] == oldViews;
        log := log + [SwapchainDestroyed(oldSwapChain)];
      }
    }

    /** The last step of `create`: take the driver's image list, resize the buffers to it, and
        give every image its buffer and a freshly created color view. */
    method FetchImagesAndCreateViews(swapchainImages: seq<Handle>, imageViews: seq<Handle>)
      requires |swapchainImages| <= Uint32Max
      requires |imageViews| == |swapchainImages|
      modifies this`imageCount, this`images, this`buffers, this`log
      ensures imageCount == |swapchainImages| && images == swapchainImages
      ensures |buffers| == imageCount
      ensures forall i :: 0 <= i < imageCount ==> buffers[i] == SwapChainBuffer(swapchainImages[i], imageViews[i])
      ensures log == old(log) + ViewCreateEvents(colorFormat, swapchainImages, imageViews)
    {
      imageCount := |swapchainImages|;
      images := swapchainImages;

      buffers := Resized(buffers, imageCount, SwapChainBuffer(NullHandle, NullHandle));
      var i := 0;
      while i < imageCount
        invariant 0 <= i <= imageCount
        invariant |buffers| == imageCount == |swapchainImages| && images == swapchainImages
        invariant forall j :: 0 <= j < i ==> buffers[j] == SwapChainBuffer(images[j], imageViews[j])
        invariant log == old(log) + ViewCreateEvents(colorFormat, images[..i], imageViews[..i])
      {
        buffers := buffers[i := buffers[i].(image := images[i])];
        var colorAttachmentView := ColorAttachmentViewInfo(colorFormat, buffers[i].image);
        buffers := buffers[i := buffers[i].(view := imageViews[i])];
        log := log + [ImageViewCreated(colorAttachmentView, imageViews[i])];
        i := i + 1;
      }
      assert images[..imageCount] == images && imageViews[..imageCount] == imageViews;
    }
  }
}
