# tinyrhi swap chain — a Dafny model

This project models `VulkanSwapChain`, the swap-chain object of the tinyrhi Vulkan
abstraction layer. The object binds a window surface and picks a graphics queue family and a
surface format (`initSurface`). It records the instance and devices (`set`). It then creates or
recreates the presentable image chain (`create`). `create` negotiates the chain with the
surface following the window-system-integration rules of the `VK_KHR_surface` and
`VK_KHR_swapchain` extensions of the Vulkan specification:

- the `0xFFFFFFFF` "undefined" current extent;
- FIFO as the present mode that is always available;
- the image count;
- the usage flags;
- the pre-transform and composite alpha.

It then retires the previous chain and builds one color view per image.

Every driver and window-system call is replaced by its result, passed in as a parameter.
Every swap chain and image view that `create` creates or destroys is appended, in call order,
to a ghost log on the object. The ordering rules of recreation are stated over that log.

Files:

- `vk_types.dfy` (module `Vk`): the Vulkan values the code touches (extents, surface formats,
  surface capabilities, creation requests), their numeric constants, and the event log entries.
- `swapchain_rules.dfy` (module `SwapChainRules`): each selection rule as a specification
  function, each early-exit search loop of the source as a method proved equal to it, and
  lemmas stating what each rule guarantees.
- `swapchain.dfy` (module `SwapChain`): the `VulkanSwapChain` class, with the fields of the C++
  class updated in place, plus the functions that describe the driver calls of one `create`
  and the lemmas about their order.

## Behaviour as written

The model follows the code where it departs from what one would expect of it, or from what
the Vulkan specification asks of a caller:

- Present mode. The IMMEDIATE test in the present-mode loop (`vulkan-swapchain.cpp:148`) is
  an assignment of `VK_PRESENT_MODE_IMMEDIATE_KHR`, whose value is 0. Its condition is always
  false, so IMMEDIATE is never chosen. As a side effect, the loop overwrites the entries it has
  passed in its local copy of the mode list, which is then discarded.
  `SelectPresentMode` performs that overwrite on a local array.
  `PresentModeChoice` and `ImmediateNeverChosen` state the consequence: the mode is MAILBOX
  exactly when v-sync is off and MAILBOX is reported, and FIFO otherwise.
- Image count. The requested image count is `minImageCount + 1` in 32-bit arithmetic, not
  clamped to `maxImageCount`. `ImageCountNotClamped` shows that when
  `minImageCount == maxImageCount != 0` the request exceeds the maximum. The valid-usage rules
  of `vkCreateSwapchainKHR` in the Vulkan specification forbid such a request.
- Surface format. The chosen format follows the surface's list order, not the order of the
  preference list (`SurfaceOrderBeatsPreferenceOrder`).
- Extent. Only the width of the current extent is compared with `0xFFFFFFFF`.
- Image views. Each image view request carries the structure type
  `VK_STRUCTURE_TYPE_IMAGE_VIEW_USAGE_CREATE_INFO` (`vulkan-swapchain.cpp:235`), not
  `VK_STRUCTURE_TYPE_IMAGE_VIEW_CREATE_INFO`. `ColorAttachmentViewInfo` keeps that value.

## Model

| member | source | states |
|---|---|---|
| `SwapChainRules.FindQueueFamilies` | tinyrhi/src/vulkan/vulkan-swapchain.cpp:30-55 | the two search loops return, with UINT32_MAX for "not found", exactly the graphics and present indices of `GraphicsQueueNodeIndex`/`PresentQueueNodeIndex`: the first family doing both, else the first graphics family and the first present-capable family |
| `SwapChainRules.QueueSelectionFailsIff` | tinyrhi/src/vulkan/vulkan-swapchain.cpp:57-61 | the queue search fails if and only if no family has the graphics bit or no family answered VK_TRUE for present support |
| `SwapChainRules.QueueSelectionCapable` | tinyrhi/src/vulkan/vulkan-swapchain.cpp:32-55 | on success the graphics index names a family with the graphics bit and the present index a family that can present |
| `SwapChainRules.QueueSelectionPrefersSharedFamily` | tinyrhi/src/vulkan/vulkan-swapchain.cpp:28-55 | if some graphics family can present, both indices are the first such family; otherwise the graphics index is the first graphics family, the present index the first present-capable family, each missing exactly when no such family exists, and the two differ |
| `SwapChainRules.SelectSurfaceFormat` | tinyrhi/src/vulkan/vulkan-swapchain.cpp:75-87 | the format loop returns the entry `ChosenSurfaceFormat` designates |
| `SwapChainRules.SurfaceFormatChoice` | tinyrhi/src/vulkan/vulkan-swapchain.cpp:75-90 | the chosen entry is the first one, in surface order, whose format is BGRA8_UNORM, RGBA8_UNORM or A8B8G8R8_UNORM_PACK32; with no such entry it is the first entry |
| `SwapChainRules.SurfaceOrderBeatsPreferenceOrder` | tinyrhi/src/vulkan/vulkan-swapchain.cpp:76-87 | a surface listing RGBA8 before BGRA8 gets RGBA8, although BGRA8 heads the preference list |
| `SwapChainRules.ResolveExtent` | tinyrhi/src/vulkan/vulkan-swapchain.cpp:118-132 | with a current width of 0xFFFFFFFF the extent is the caller's width and height, which stay unchanged; otherwise the extent is the current extent; in both cases the values written back equal the extent used |
| `SwapChainRules.ResolveExtentStable` | tinyrhi/src/vulkan/vulkan-swapchain.cpp:121-132 | passing the written-back size to a second `create` against the same capabilities gives the same extent and size |
| `SwapChainRules.SelectPresentMode` | tinyrhi/src/vulkan/vulkan-swapchain.cpp:138-153 | the present-mode loop, including the assignment at line 148 into its local copy, returns `ChosenPresentMode` |
| `SwapChainRules.PresentModeChoice` | tinyrhi/src/vulkan/vulkan-swapchain.cpp:136-153 | the mode is FIFO or MAILBOX and never IMMEDIATE; it is MAILBOX if and only if v-sync is off and MAILBOX is reported; with v-sync it is FIFO |
| `SwapChainRules.ImmediateNeverChosen` | tinyrhi/src/vulkan/vulkan-swapchain.cpp:148-151 | with modes FIFO and IMMEDIATE and v-sync off, the mode is still FIFO |
| `SwapChainRules.DesiredImageCount` | tinyrhi/src/vulkan/vulkan-swapchain.cpp:157 | the requested count is `minImageCount + 1`, wrapping to 0 only when `minImageCount` is UINT32_MAX |
| `SwapChainRules.ImageCountNotClamped` | tinyrhi/src/vulkan/vulkan-swapchain.cpp:155-157 | when `minImageCount == maxImageCount != 0`, the request is `maxImageCount + 1`: there is no clamp |
| `SwapChainRules.ImageUsageChoice` | tinyrhi/src/vulkan/vulkan-swapchain.cpp:193-212 | the usage always has COLOR_ATTACHMENT, has TRANSFER_SRC and TRANSFER_DST exactly when the surface supports them, and no other bit |
| `SwapChainRules.ChosenPreTransform` | tinyrhi/src/vulkan/vulkan-swapchain.cpp:159-168 | the pre-transform is IDENTITY or the surface's current transform |
| `SwapChainRules.PreTransformChoice` | tinyrhi/src/vulkan/vulkan-swapchain.cpp:160-168 | IDENTITY when supported, otherwise the current transform; the result is a supported transform whenever the current transform is |
| `SwapChainRules.SelectCompositeAlpha` | tinyrhi/src/vulkan/vulkan-swapchain.cpp:170-184 | the composite-alpha loop returns `ChosenCompositeAlpha`: the first supported bit in the order OPAQUE, PRE_MULTIPLIED, POST_MULTIPLIED, INHERIT, else OPAQUE |
| `SwapChainRules.CompositeAlphaChoice` | tinyrhi/src/vulkan/vulkan-swapchain.cpp:171-184 | the composite alpha is one of the four bits; it is supported unless none of the four is, in which case it is OPAQUE; every bit ahead of it in the order is unsupported |
| `SwapChain.ColorAttachmentViewInfo` | tinyrhi/src/vulkan/vulkan-swapchain.cpp:234-253 | each view request is a 2D view of the given image and color format, with identity swizzle, color aspect, mip 0 with count 1 and layer 0 with count 1 |
| `SwapChain.CreateRequestFollowsRules` | tinyrhi/src/vulkan/vulkan-swapchain.cpp:186-212 | the creation request carries the previous handle as `oldSwapchain`, the surface, the color format and space, a present mode that is never IMMEDIATE (FIFO under v-sync), COLOR_ATTACHMENT usage, `minImageCount + 1` images and the resolved extent |
| `SwapChain.ViewDestroyEvents` | tinyrhi/src/vulkan/vulkan-swapchain.cpp:219-222 | one destroy call per old view, in buffer order |
| `SwapChain.ViewCreateEvents` | tinyrhi/src/vulkan/vulkan-swapchain.cpp:233-257 | one view creation per new image, in image order, each with the color-attachment view request for that image |
| `SwapChain.RecreationOrder` | tinyrhi/src/vulkan/vulkan-swapchain.cpp:214-257 | when a previous chain exists: the new chain is created first, then each old view is destroyed in order, then the old handle, then the new views are created |
| `SwapChain.EventPositions` | tinyrhi/src/vulkan/vulkan-swapchain.cpp:214-257 | in every `create` the chain creation is the first call, the destructions occupy exactly the next positions with the old handle last among them, and only view creations follow |
| `SwapChain.TeardownOrdering` | tinyrhi/src/vulkan/vulkan-swapchain.cpp:214-224 | no destruction precedes the new chain's creation or follows a view creation, and no view is destroyed after the old handle |
| `SwapChain.FirstCreateDestroysNothing` | tinyrhi/src/vulkan/vulkan-swapchain.cpp:217-224 | when the previous handle is null, `create` destroys nothing |
| `SwapChain.VulkanSwapChain.constructor` | tinyrhi/include/tinyrhi/vulkan-swapchain.h:18-24 | a new object has a null swap chain, `queueNodeIndex` UINT32_MAX and empty image and buffer lists |
| `SwapChain.VulkanSwapChain.Set` | tinyrhi/src/vulkan/vulkan-swapchain.cpp:93-98 | stores the instance, physical device and device, and changes nothing else |
| `SwapChain.VulkanSwapChain.InitSurface` | tinyrhi/src/vulkan/vulkan-swapchain.cpp:4-91 | stores the surface; if the surface failed or the queue search failed, leaves `queueNodeIndex`, `colorFormat` and `colorSpace` untouched; otherwise sets `queueNodeIndex` to the graphics index and both color fields from the same chosen surface-format entry |
| `SwapChain.VulkanSwapChain.SwapchainRequest` | tinyrhi/src/vulkan/vulkan-swapchain.cpp:103-212 | builds the creation request of the selection rules with the current handle as `oldSwapchain`, and the written-back size |
| `SwapChain.VulkanSwapChain.DestroyOldSwapChain` | tinyrhi/src/vulkan/vulkan-swapchain.cpp:217-224 | with a previous handle, logs the destruction of the `imageCount` old views in order and then of the old handle; with none, logs nothing |
| `SwapChain.VulkanSwapChain.FetchImagesAndCreateViews` | tinyrhi/src/vulkan/vulkan-swapchain.cpp:226-257 | `imageCount` and `images` become the driver's image list; `buffers` has one entry per image with `buffers[i].image == images[i]` and the view created for it; the view creations are logged in order |
| `SwapChain.VulkanSwapChain.Create` | tinyrhi/src/vulkan/vulkan-swapchain.cpp:101-258 | the whole new state: written-back size, new handle, image count, images, buffers, and the log extended by exactly the calls of `CreateEvents` (request with the old handle, teardown of the old views and handle, new views); keeps `Valid()` |

## Left out

- Window surface: `glfwCreateWindowSurface` (`vulkan-swapchain.cpp:6`) is a window-system call;
  its result code and the handle it writes are parameters of `InitSurface`.
- Driver calls: every `vkGet*`, `vkCreate*` and `vkDestroy*` call is foreign code. Its answers
  (queue family properties, present support, surface formats, capabilities, present modes,
  the new swap-chain handle, its images and the new views) are parameters. Creations and
  destructions are recorded in the ghost log. The `VkResult` of the support and format queries
  is ignored, as in the source.
- Debug assertions: the `assert`s at `vulkan-swapchain.cpp:15, 68, 108, 113, 215, 227, 229, 256`
  are not modelled. Those at 215, 227, 229 and 256 compare a `VkResult` as a boolean, where
  success is 0, and are compiled out under `NDEBUG` together with the call they wrap. The model
  treats each wrapped call as made and successful. `InitSurface` requires a non-empty format
  list only when the search reaches the format step, because line 75 reads its first element
  unchecked.
- The log message at `vulkan-swapchain.cpp:59` is console output.
- `fullscreen`: the parameter of `create` is never used and is not a parameter of `Create`.
- Queue family properties are reduced to `queueFlags`, the only member the code reads.
- The C++ fields without initialiser (handles, `colorFormat`, `colorSpace`, `imageCount`)
  start at zero in the constructor. The code reads `imageCount` and `buffers` only once a swap
  chain exists (`Valid()`).
- `images.resize` before the image query is not modelled separately: the query fills the whole
  vector, so `images` becomes the driver's list.
- `Create` describes the old views as those of all `buffers`. The source destroys the first
  `imageCount` of them; `Valid()` makes these the same.
- Dispatchable handles (`VkInstance`, `VkPhysicalDevice`, `VkDevice`) are modelled as 64-bit
  integers, like the non-dispatchable ones.
- `tinyrhi/src/vulkan/vulkan.cpp` (`initVulkan`) and `tinyrhi/src/vulkan/vulkan-device.cpp` are
  not part of this model. The first is unfinished instance setup without a result; the second
  only stores driver property queries.
- Per-frame semaphores and fences, image acquisition and presentation, physical-device
  selection, queue-creation deduplication and the clamp to `maxImageCount` do not exist in
  this code, so they are not modelled.
