/** `create_swapchain` and its helpers: the choices that fill in the swapchain
    description handed to `create_swapchain_khr`. */
module Swapchain {
  import opened Iter
  import opened Vk
  import opened QueueFamilies

  // ---------------------------------------------------------------------------
  // Surface format: `get_swapchain_surface_format`

  /** 8-bit BGRA in the non-linear sRGB colour space. */
  const PREFERRED_SURFACE_FORMAT: SurfaceFormat := SurfaceFormat(B8G8R8A8Srgb, SrgbNonlinear)

  predicate IsPreferredFormat(f: SurfaceFormat) {
    f.format == B8G8R8A8Srgb && f.colorSpace == SrgbNonlinear
  }

  /** The first preferred entry, or else the first entry as reported. An empty
      list has no first entry: `formats[0]` panics on it. */
  function ChooseSurfaceFormat(formats: seq<SurfaceFormat>): (r: SurfaceFormat)
    requires |formats| > 0
    ensures r in formats
    ensures IsPreferredFormat(r) ==> exists i: nat :: IsFirst(formats, IsPreferredFormat, i) && r == formats[i]
    ensures IsPreferredFormat(r) <==> exists i :: 0 <= i < |formats| && IsPreferredFormat(formats[i])
    ensures !IsPreferredFormat(r) ==> r == formats[0]
  {
    match Find(formats, IsPreferredFormat)
    case Some(f) => f
    case None => formats[0]
  }

  /** Wherever the preferred entry stands in the list, it is the one chosen. */
  lemma ChooseSurfaceFormatAnywhere(before: seq<SurfaceFormat>, after: seq<SurfaceFormat>)
    ensures ChooseSurfaceFormat(before + [PREFERRED_SURFACE_FORMAT] + after) == PREFERRED_SURFACE_FORMAT
  {
    var formats := before + [PREFERRED_SURFACE_FORMAT] + after;
    assert IsPreferredFormat(formats[|before|]);
  }

  // ---------------------------------------------------------------------------
  // Present mode: `get_swapchain_present_mode`

  /** Always FIFO, whatever the surface advertises (the Mailbox-preferring
      search is commented out in the source). */
  function ChoosePresentMode(presentModes: seq<PresentMode>): (r: PresentMode)
    ensures r == Fifo
  {
    Fifo
  }

  /** Advertising Mailbox, or any other mode, does not change the choice. */
  lemma PresentModeIgnoresMailbox(presentModes: seq<PresentMode>, more: seq<PresentMode>)
    ensures ChoosePresentMode(presentModes + [Mailbox]) == ChoosePresentMode(presentModes)
    ensures ChoosePresentMode(presentModes + more) == ChoosePresentMode(presentModes)
  {
  }

  /** Every Vulkan surface must support FIFO, so the fixed choice is a mode the
      surface supports. */
  lemma ChosenPresentModeSupported(presentModes: seq<PresentMode>)
    requires Fifo in presentModes
    ensures ChoosePresentMode(presentModes) in presentModes
  {
  }

  // ---------------------------------------------------------------------------
  // Extent: `get_swapchain_extent`

  function Min(a: u32, b: u32): u32 { if a <= b then a else b }
  function Max(a: u32, b: u32): u32 { if a >= b then a else b }

  /** What clamping `v` into `[lo, hi]` means, case by case; with inverted
      bounds the lower one wins. */
  predicate IsClampOf(lo: u32, hi: u32, v: u32, r: u32) {
    && lo <= r
    && (lo <= hi ==> r <= hi)
    && (lo <= v <= hi ==> r == v)
    && (v < lo ==> r == lo)
    && (lo <= hi < v ==> r == hi)
    && (hi < lo ==> r == lo)
  }

  /** The closure `|min, max, v| min.max(max.min(v))`. */
  function Clamp(lo: u32, hi: u32, v: u32): (r: u32)
    ensures IsClampOf(lo, hi, v, r)
  {
    Max(lo, Min(hi, v))
  }

  /** `IsClampOf` pins the result down, so any function meeting it is `Clamp`. */
  lemma ClampDetermined(lo: u32, hi: u32, v: u32, r: u32)
    requires IsClampOf(lo, hi, v, r)
    ensures r == Clamp(lo, hi, v)
  {
  }

  /** Clamping twice is clamping once. */
  lemma ClampIdempotent(lo: u32, hi: u32, v: u32)
    ensures Clamp(lo, hi, Clamp(lo, hi, v)) == Clamp(lo, hi, v)
  {
  }

  /** A definite `currentExtent` (width not the `u32::MAX` sentinel) is used as
      is; otherwise the window's inner size is clamped componentwise into
      `[minImageExtent, maxImageExtent]`. */
  function ChooseExtent(windowSize: Extent2D, caps: SurfaceCapabilities): (r: Extent2D)
    ensures caps.currentExtent.width != U32_MAX ==> r == caps.currentExtent
    ensures caps.currentExtent.width == U32_MAX ==>
              && IsClampOf(caps.minImageExtent.width, caps.maxImageExtent.width, windowSize.width, r.width)
              && IsClampOf(caps.minImageExtent.height, caps.maxImageExtent.height, windowSize.height, r.height)
  {
    if caps.currentExtent.width != U32_MAX then
      caps.currentExtent
    else
      Extent2D(
        Clamp(caps.minImageExtent.width, caps.maxImageExtent.width, windowSize.width),
        Clamp(caps.minImageExtent.height, caps.maxImageExtent.height, windowSize.height))
  }

  /** Capabilities with an undefined current extent and the given bounds. */
  function UndefinedExtentCaps(minExtent: Extent2D, maxExtent: Extent2D): SurfaceCapabilities {
    SurfaceCapabilities(2, 0, Extent2D(U32_MAX, U32_MAX), minExtent, maxExtent, 1)
  }

  /** The two worked examples: bounds (64,64)..(4096,4096), a window of
      (10000,10000) gives (4096,4096), a window of (10,10) gives (64,64). */
  lemma ExtentExamples()
    ensures ChooseExtent(Extent2D(10000, 10000), UndefinedExtentCaps(Extent2D(64, 64), Extent2D(4096, 4096)))
            == Extent2D(4096, 4096)
    ensures ChooseExtent(Extent2D(10, 10), UndefinedExtentCaps(Extent2D(64, 64), Extent2D(4096, 4096)))
            == Extent2D(64, 64)
  {
  }

  // ---------------------------------------------------------------------------
  // Image count and sharing mode, inside `create_swapchain`

  /** `min_image_count + 1`, capped at a nonzero `max_image_count`. The addition
      is on `u32`: at `u32::MAX` it overflows, so callers keep below it. */
  function ImageCount(caps: SurfaceCapabilities): (n: u32)
    requires caps.minImageCount < U32_MAX
    ensures caps.maxImageCount == 0 ==> n == caps.minImageCount + 1
    ensures caps.maxImageCount != 0 ==> n <= caps.maxImageCount
    ensures n <= caps.minImageCount + 1
    ensures n == caps.minImageCount + 1 || n == caps.maxImageCount
    ensures caps.minImageCount < caps.maxImageCount ==> n == caps.minImageCount + 1
  {
    if caps.maxImageCount != 0 && caps.minImageCount + 1 > caps.maxImageCount then
      caps.maxImageCount
    else
      caps.minImageCount + 1
  }

  /** Capabilities with the given image-count bounds. */
  function CountCaps(minCount: u32, maxCount: u32): SurfaceCapabilities {
    SurfaceCapabilities(minCount, maxCount, Extent2D(800, 600), Extent2D(1, 1), Extent2D(4096, 4096), 1)
  }

  /** (2, 4) asks for 3; (3, 3) is capped at 3; an unlimited maximum never caps. */
  lemma ImageCountExamples(minCount: u32)
    requires minCount < U32_MAX
    ensures ImageCount(CountCaps(2, 4)) == 3
    ensures ImageCount(CountCaps(3, 3)) == 3
    ensures ImageCount(CountCaps(minCount, 0)) == minCount + 1
  {
  }

  /** `vk::SharingMode`. */
  datatype SharingMode = Exclusive | Concurrent

  /** The sharing mode and the queue family list of the swapchain images. */
  datatype Sharing = Sharing(mode: SharingMode, queueFamilyIndices: seq<u32>)

  /** Concurrent across `[graphics, present]`, in that order, when the two
      families differ; exclusive with no family list when they coincide. */
  function ChooseSharing(indices: QueueFamilyIndices): (r: Sharing)
    ensures r.mode == Concurrent <==> indices.graphicsIndex != indices.presentIndex
    ensures r.mode == Exclusive ==> r.queueFamilyIndices == []
    ensures r.mode == Concurrent ==> r.queueFamilyIndices == [indices.graphicsIndex, indices.presentIndex]
  {
    if indices.graphicsIndex != indices.presentIndex then
      Sharing(Concurrent, [indices.graphicsIndex, indices.presentIndex])
    else
      Sharing(Exclusive, [])
  }

  /** Vulkan accepts concurrent sharing only with more than one family index,
      all distinct; the chosen list meets that, and the images are usable from
      both queues either way. */
  lemma SharingIsValid(indices: QueueFamilyIndices)
    ensures var s := ChooseSharing(indices);
            s.mode == Concurrent ==>
              |s.queueFamilyIndices| > 1
              && (forall i, j :: 0 <= i < j < |s.queueFamilyIndices| ==> s.queueFamilyIndices[i] != s.queueFamilyIndices[j])
    ensures var s := ChooseSharing(indices);
            {indices.graphicsIndex, indices.presentIndex}
              == (if s.mode == Exclusive then {indices.graphicsIndex} else set f | f in s.queueFamilyIndices)
  {
  }

  // ---------------------------------------------------------------------------
  // The swapchain description

  /** `vk::ImageUsageFlags` and `vk::CompositeAlphaFlagsKHR`, as far as used. */
  datatype ImageUsage = ColorAttachment
  datatype CompositeAlpha = OpaqueAlpha

  /** `vk::SwapchainCreateInfoKHR`; `old_swapchain` is always the null handle. */
  datatype SwapchainCreateInfo = SwapchainCreateInfo(
    minImageCount: u32,
    imageFormat: Format,
    imageColorSpace: ColorSpace,
    imageExtent: Extent2D,
    imageArrayLayers: nat,
    imageUsage: ImageUsage,
    imageSharingMode: SharingMode,
    queueFamilyIndices: seq<u32>,
    preTransform: SurfaceTransform,
    compositeAlpha: CompositeAlpha,
    presentMode: PresentMode,
    clipped: bool)

  /** The description the rules above give for a surface and resolved queue
      families: the fixed settings of `create_swapchain` and the chosen image
      count, format, extent, sharing and present mode. */
  function SwapchainInfoFor(windowSize: Extent2D, support: SwapchainSupport, indices: QueueFamilyIndices)
    : SwapchainCreateInfo
    requires |support.formats| > 0
    requires support.capabilities.minImageCount < U32_MAX
  {
    var surfaceFormat := ChooseSurfaceFormat(support.formats);
    var sharing := ChooseSharing(indices);
    SwapchainCreateInfo(
      ImageCount(support.capabilities), surfaceFormat.format, surfaceFormat.colorSpace,
      ChooseExtent(windowSize, support.capabilities), 1, ColorAttachment,
      sharing.mode, sharing.queueFamilyIndices, support.capabilities.currentTransform,
      OpaqueAlpha, ChoosePresentMode(support.presentModes), true)
  }

  /** The body of `create_swapchain` up to `create_swapchain_khr`: the image
      count is set and then lowered to a nonzero cap, the family list is pushed
      to only under concurrent sharing. */
  method ConfigureSwapchain(windowSize: Extent2D, support: SwapchainSupport, indices: QueueFamilyIndices)
    returns (info: SwapchainCreateInfo)
    requires |support.formats| > 0
    requires support.capabilities.minImageCount < U32_MAX
    ensures info.minImageCount == ImageCount(support.capabilities)
    ensures SurfaceFormat(info.imageFormat, info.imageColorSpace) == ChooseSurfaceFormat(support.formats)
    ensures info.imageExtent == ChooseExtent(windowSize, support.capabilities)
    ensures Sharing(info.imageSharingMode, info.queueFamilyIndices) == ChooseSharing(indices)
    ensures info.presentMode == ChoosePresentMode(support.presentModes)
    ensures info.imageArrayLayers == 1 && info.imageUsage == ColorAttachment
    ensures info.preTransform == support.capabilities.currentTransform
    ensures info.compositeAlpha == OpaqueAlpha && info.clipped
    ensures info == SwapchainInfoFor(windowSize, support, indices)
  {
    var caps := support.capabilities;
    var surfaceFormat := ChooseSurfaceFormat(support.formats);
    var presentMode := ChoosePresentMode(support.presentModes);
    var extent := ChooseExtent(windowSize, caps);

    var imageCount: u32 := caps.minImageCount + 1;
    if caps.maxImageCount != 0 && imageCount > caps.maxImageCount {
      imageCount := caps.maxImageCount;
    }

    var queueFamilyIndices: seq<u32> := [];
    var imageSharingMode;
    if indices.graphicsIndex != indices.presentIndex {
      queueFamilyIndices := queueFamilyIndices + [indices.graphicsIndex];
      queueFamilyIndices := queueFamilyIndices + [indices.presentIndex];
      imageSharingMode := Concurrent;
    } else {
      imageSharingMode := Exclusive;
    }

    info := SwapchainCreateInfo(
      imageCount, surfaceFormat.format, surfaceFormat.colorSpace, extent, 1, ColorAttachment,
      imageSharingMode, queueFamilyIndices, caps.currentTransform, OpaqueAlpha, presentMode, true);
  }
}
