/** The Vulkan values the selection rules read, as plain data. Every handle
    and every query result the program obtains through the Vulkan loader is
    an input here. */
module Vk {

  /** Vulkan's `uint32_t`, used for counts, extents and queue family indices. */
  type u32 = x: int | 0 <= x < 0x1_0000_0000

  /** `u32::MAX`; as `currentExtent.width` it means "extent determined by the swapchain". */
  const U32_MAX: u32 := 0xFFFF_FFFF

  /** `VkFormat`: the preferred format, or any other format by its code. */
  datatype Format = B8G8R8A8Srgb | OtherFormat(code: int)

  /** `VkColorSpaceKHR`: the preferred colour space, or any other by its code. */
  datatype ColorSpace = SrgbNonlinear | OtherColorSpace(code: int)

  /** `VkSurfaceFormatKHR`. */
  datatype SurfaceFormat = SurfaceFormat(format: Format, colorSpace: ColorSpace)

  /** `VkPresentModeKHR`. */
  datatype PresentMode = Immediate | Mailbox | Fifo | FifoRelaxed | OtherPresentMode(code: int)

  /** `VkExtent2D`, and winit's `PhysicalSize<u32>` for the window's inner size. */
  datatype Extent2D = Extent2D(width: u32, height: u32)

  /** `VkSurfaceTransformFlagsKHR`, passed through unread as its bit mask. */
  type SurfaceTransform = u32

  /** `VkSurfaceCapabilitiesKHR`, the fields the program reads. */
  datatype SurfaceCapabilities = SurfaceCapabilities(
    minImageCount: u32,
    maxImageCount: u32,       // 0 means "no limit"
    currentExtent: Extent2D,
    minImageExtent: Extent2D,
    maxImageExtent: Extent2D,
    currentTransform: SurfaceTransform)

  /** `SwapchainSupport`: the surface queries for one device and surface. */
  datatype SwapchainSupport = SwapchainSupport(
    capabilities: SurfaceCapabilities,
    formats: seq<SurfaceFormat>,
    presentModes: seq<PresentMode>)

  /** `VkPhysicalDeviceType`. */
  datatype PhysicalDeviceType = OtherDeviceType | IntegratedGpu | DiscreteGpu | VirtualGpu | Cpu

  /** One entry of `get_physical_device_queue_family_properties`, with the
      answer of `get_physical_device_surface_support_khr` for its index and
      the target surface. */
  datatype QueueFamily = QueueFamily(graphics: bool, presentSupported: bool)

  /** Everything the program asks about one physical device. */
  datatype PhysicalDevice = PhysicalDevice(
    deviceType: PhysicalDeviceType,
    geometryShader: bool,
    extensions: set<string>,
    queueFamilies: seq<QueueFamily>,
    support: SwapchainSupport)

  /** Vulkan reports the number of queue families as a `uint32_t`, so every
      family index fits in one. */
  predicate FamilyCountFits(families: seq<QueueFamily>) {
    |families| <= U32_MAX
  }

  /** `vk::KHR_SWAPCHAIN_EXTENSION.name`. */
  const KHR_SWAPCHAIN_EXTENSION_NAME: string := "VK_KHR_swapchain"

  /** `DEVICE_EXTENSIONS`: the device extensions the program needs and enables. */
  const DEVICE_EXTENSIONS: seq<string> := [KHR_SWAPCHAIN_EXTENSION_NAME]

  /** `vk::Image` and `vk::ImageView` handles. */
  datatype Image = Image(handle: nat)
  datatype ImageView = ImageView(handle: nat)

  /** `vk::ErrorCode`, the error of a failed Vulkan call. */
  datatype VkError = VkError(code: int)
}
