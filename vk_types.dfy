/** Values and constants of the Vulkan window-system-integration API (the VK_KHR_surface and
    VK_KHR_swapchain extensions) that the swap-chain code reads and writes. Only the members the
    swap chain touches are modelled; the numeric values are those of the Vulkan headers. */
module Vk {

  type uint32 = x: int | 0 <= x < 0x1_0000_0000
  type uint64 = x: int | 0 <= x < 0x1_0000_0000_0000_0000

  /** UINT32_MAX, used by the source as "no queue family found" and as the
      "undefined extent" sentinel (`(uint32_t)-1`). */
  const Uint32Max: uint32 := 0xFFFF_FFFF

  /** A non-dispatchable handle (VkSurfaceKHR, VkSwapchainKHR, VkImage, VkImageView, ...). */
  type Handle = uint64
  const NullHandle: Handle := 0

  /** A `Vk*Flags` bit mask. */
  type Flags = bv32

  /** VkBool32 is a 32-bit unsigned integer; only the value 1 is VK_TRUE. */
  type Bool32 = uint32
  const True32: Bool32 := 1

  /** VkResult; success is the value 0. */
  type Result = int
  const Success: Result := 0

  // VkQueueFlagBits
  const QueueGraphicsBit: Flags := 0x1

  // VkFormat (an enum, so any int the driver reports can occur)
  type Format = int
  const FormatUndefined: Format := 0
  const FormatR8G8B8A8Unorm: Format := 37
  const FormatB8G8R8A8Unorm: Format := 44
  const FormatA8B8G8R8UnormPack32: Format := 51

  // VkColorSpaceKHR
  type ColorSpace = int

  // VkPresentModeKHR
  type PresentMode = int
  const PresentModeImmediate: PresentMode := 0
  const PresentModeMailbox: PresentMode := 1
  const PresentModeFifo: PresentMode := 2

  // VkSurfaceTransformFlagBitsKHR
  const SurfaceTransformIdentityBit: Flags := 0x1

  // VkCompositeAlphaFlagBitsKHR
  const CompositeAlphaOpaqueBit: Flags := 0x1
  const CompositeAlphaPreMultipliedBit: Flags := 0x2
  const CompositeAlphaPostMultipliedBit: Flags := 0x4
  const CompositeAlphaInheritBit: Flags := 0x8

  // VkImageUsageFlagBits
  const ImageUsageTransferSrcBit: Flags := 0x1
  const ImageUsageTransferDstBit: Flags := 0x2
  const ImageUsageColorAttachmentBit: Flags := 0x10

  // VkStructureType
  type StructureType = int
  const StructureTypeImageViewCreateInfo: StructureType := 15
  const StructureTypeSwapchainCreateInfo: StructureType := 1000001000
  const StructureTypeImageViewUsageCreateInfo: StructureType := 1000117002

  // VkSharingMode
  const SharingModeExclusive: int := 0

  // VkImageViewType
  const ImageViewType2D: int := 1

  // VkComponentSwizzle
  type ComponentSwizzle = int
  const ComponentSwizzleIdentity: ComponentSwizzle := 0
  const ComponentSwizzleR: ComponentSwizzle := 3
  const ComponentSwizzleG: ComponentSwizzle := 4
  const ComponentSwizzleB: ComponentSwizzle := 5
  const ComponentSwizzleA: ComponentSwizzle := 6

  // VkImageAspectFlagBits
  const ImageAspectColorBit: Flags := 0x1

  /** VkExtent2D */
  datatype Extent2D = Extent2D(width: uint32, height: uint32)

  /** VkQueueFamilyProperties, reduced to the flags the swap chain inspects. */
  datatype QueueFamilyProperties = QueueFamilyProperties(queueFlags: Flags)

  /** VkSurfaceFormatKHR */
  datatype SurfaceFormat = SurfaceFormat(format: Format, colorSpace: ColorSpace)

  /** VkSurfaceCapabilitiesKHR */
  datatype SurfaceCapabilities = SurfaceCapabilities(
    minImageCount: uint32,
    maxImageCount: uint32,
    currentExtent: Extent2D,
    minImageExtent: Extent2D,
    maxImageExtent: Extent2D,
    maxImageArrayLayers: uint32,
    supportedTransforms: Flags,
    currentTransform: Flags,
    supportedCompositeAlpha: Flags,
    supportedUsageFlags: Flags)

  /** VkSwapchainCreateInfoKHR, with the members the swap chain fills in. */
  datatype SwapchainCreateInfo = SwapchainCreateInfo(
    sType: StructureType,
    surface: Handle,
    minImageCount: uint32,
    imageFormat: Format,
    imageColorSpace: ColorSpace,
    imageExtent: Extent2D,
    imageUsage: Flags,
    preTransform: Flags,
    imageArrayLayers: uint32,
    imageSharingMode: int,
    queueFamilyIndexCount: uint32,
    presentMode: PresentMode,
    oldSwapchain: Handle,
    clipped: Bool32,
    compositeAlpha: Flags)

  /** VkComponentMapping */
  datatype ComponentMapping = ComponentMapping(r: ComponentSwizzle, g: ComponentSwizzle, b: ComponentSwizzle, a: ComponentSwizzle)

  /** VkImageSubresourceRange */
  datatype SubresourceRange = SubresourceRange(
    aspectMask: Flags, baseMipLevel: uint32, levelCount: uint32, baseArrayLayer: uint32, layerCount: uint32)

  /** VkImageViewCreateInfo */
  datatype ImageViewCreateInfo = ImageViewCreateInfo(
    sType: StructureType,
    flags: Flags,
    image: Handle,
    viewType: int,
    format: Format,
    components: ComponentMapping,
    subresourceRange: SubresourceRange)

  /** One driver call that creates or destroys a swap-chain object, in the order it is issued. */
  datatype Event =
    | SwapchainCreated(createInfo: SwapchainCreateInfo, swapchain: Handle)
    | ImageViewDestroyed(view: Handle)
    | SwapchainDestroyed(swapchain: Handle)
    | ImageViewCreated(viewInfo: ImageViewCreateInfo, view: Handle)
  {
    predicate IsDestroy() { ImageViewDestroyed? || SwapchainDestroyed? }
  }
}
