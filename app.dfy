/** `App::new`: the start-up sequence as one result-returning pipeline. Each
    stage's panic becomes an `InitError`. */
module App {
  import opened Wrappers
  import opened Iter
  import opened Vk
  import opened DeviceSelection
  import opened QueueFamilies
  import opened LogicalDevice
  import opened Swapchain
  import opened ImageViews

  /** The panics of the start-up sequence that the model keeps. */
  datatype InitError =
    | NoSuitableDevice                    // "Failed to find suitable physical device."
    | MissingQueueFamilies                // "Missing required queue families."
    | ImageCountOverflow                  // `min_image_count + 1` overflows `u32`
    | ImageViewCreationFailed(error: VkError)

  /** The fields of `App` that the selection rules decide. */
  datatype AppResources = AppResources(
    physicalDevice: nat,                  // index in enumeration order
    deviceInfo: DeviceCreateInfo,
    queues: QueueFamilyIndices,
    swapchainInfo: SwapchainCreateInfo,
    swapchainFormat: Format,
    swapchainExtent: Extent2D,
    swapchainImages: seq<Image>,
    swapchainImageViews: seq<ImageView>)

  /** Where the start-up sequence stops before the image views, or the device
      index, queue families and swapchain description it reaches: the first
      suitable device, its queue families by `position`, and the swapchain
      rules applied to its surface queries. */
  function PlannedSwapchain(devices: seq<PhysicalDevice>, windowSize: Extent2D)
    : Result<(nat, QueueFamilyIndices, SwapchainCreateInfo), InitError>
    requires forall i :: 0 <= i < |devices| ==> FamilyCountFits(devices[i].queueFamilies)
  {
    match Position(devices, Suitable)
    case None => Err(NoSuitableDevice)
    case Some(i) =>
      match ResolvedQueueIndices(devices[i].queueFamilies)
      case None => Err(MissingQueueFamilies)
      case Some(q) =>
        if devices[i].support.capabilities.minImageCount == U32_MAX then Err(ImageCountOverflow)
        else Ok((i, q, SwapchainInfoFor(windowSize, devices[i].support, q)))
  }

  /** Device pick, logical device, swapchain, images and views, in the order of
      `App::new`. The enumerated devices and their query results are `devices`;
      `swapchainImages` is what `get_swapchain_images_khr` returns for the
      swapchain created from a description; `createImageView` is the driver's
      `create_image_view`. */
  method NewApp(
    devices: seq<PhysicalDevice>,
    windowSize: Extent2D,
    swapchainImages: SwapchainCreateInfo -> seq<Image>,
    createImageView: ImageViewCreateInfo -> Result<ImageView, VkError>)
    returns (r: Result<AppResources, InitError>)
    requires forall i :: 0 <= i < |devices| ==> FamilyCountFits(devices[i].queueFamilies)
    ensures r == Err(NoSuitableDevice) <==> Position(devices, Suitable).None?
    ensures r == Err(MissingQueueFamilies) <==>
              && Position(devices, Suitable).Some?
              && var d := devices[Position(devices, Suitable).value];
                 NoneMatch(d.queueFamilies, SupportsGraphics) || NoneMatch(d.queueFamilies, SupportsPresent)
    ensures r.Ok? ==> Position(devices, Suitable) == Some(r.value.physicalDevice)
    ensures r.Ok? ==>
              var d := devices[r.value.physicalDevice];
              && IsFirst(d.queueFamilies, SupportsGraphics, r.value.queues.graphicsIndex)
              && IsFirst(d.queueFamilies, SupportsPresent, r.value.queues.presentIndex)
              && Families(r.value.deviceInfo.queueCreateInfos) == {r.value.queues.graphicsIndex, r.value.queues.presentIndex}
              && d.support.capabilities.minImageCount < U32_MAX
              && r.value.swapchainInfo.minImageCount == ImageCount(d.support.capabilities)
              && r.value.swapchainFormat == ChooseSurfaceFormat(d.support.formats).format
              && r.value.swapchainExtent == ChooseExtent(windowSize, d.support.capabilities)
              && r.value.swapchainInfo.presentMode == Fifo
              && ChooseSharing(r.value.queues)
                 == Sharing(r.value.swapchainInfo.imageSharingMode, r.value.swapchainInfo.queueFamilyIndices)
    ensures r.Ok? ==> r.value.swapchainImages == swapchainImages(r.value.swapchainInfo)
    ensures r.Ok? ==> |r.value.swapchainImageViews| == |r.value.swapchainImages|
    ensures r.Ok? ==>
              forall i :: 0 <= i < |r.value.swapchainImages| ==>
                createImageView(ViewInfo(r.value.swapchainImages[i], r.value.swapchainFormat))
                == Ok(r.value.swapchainImageViews[i])
    // Every outcome, stage by stage.
    ensures PlannedSwapchain(devices, windowSize).Err? ==>
              r == Err(PlannedSwapchain(devices, windowSize).error)
    ensures PlannedSwapchain(devices, windowSize).Ok? ==>
              var (index, queues, info) := PlannedSwapchain(devices, windowSize).value;
              match CreateImageViews(swapchainImages(info), info.imageFormat, createImageView)
              case Err(e) => r == Err(ImageViewCreationFailed(e))
              case Ok(views) =>
                && r.Ok?
                && r.value.physicalDevice == index
                && r.value.queues == queues
                && r.value.swapchainInfo == info
                && r.value.swapchainFormat == info.imageFormat
                && r.value.swapchainExtent == info.imageExtent
                && r.value.swapchainImages == swapchainImages(info)
                && r.value.swapchainImageViews == views
                && Families(r.value.deviceInfo.queueCreateInfos) == {queues.graphicsIndex, queues.presentIndex}
                && DistinctFamilies(r.value.deviceInfo.queueCreateInfos)
                && r.value.deviceInfo.enabledExtensionNames == DEVICE_EXTENSIONS
  {
    var picked := PickPhysicalDevice(devices);
    if picked.None? {
      return Err(NoSuitableDevice);
    }
    var index := picked.value;
    FirstIsPosition(devices, Suitable, index);
    var device := devices[index];

    var logical := CreateLogicalDevice(device);
    if logical.None? {
      return Err(MissingQueueFamilies);
    }
    var (deviceInfo, queues) := logical.value;

    // `create_swapchain` resolves the queue families a second time and gets
    // the same indices.
    var queuesAgain := GetQueueIndices(device.queueFamilies);
    FirstIsPosition(device.queueFamilies, SupportsGraphics, queuesAgain.value.graphicsIndex);
    FirstIsPosition(device.queueFamilies, SupportsPresent, queuesAgain.value.presentIndex);
    FirstIsPosition(device.queueFamilies, SupportsGraphics, queues.graphicsIndex);
    FirstIsPosition(device.queueFamilies, SupportsPresent, queues.presentIndex);
    assert queuesAgain.value == queues;
    var support := device.support;
    if support.capabilities.minImageCount == U32_MAX {
      return Err(ImageCountOverflow);
    }
    var info := ConfigureSwapchain(windowSize, support, queuesAgain.value);
    var images := swapchainImages(info);
    var views := CreateImageViews(images, info.imageFormat, createImageView);
    if views.Err? {
      return Err(ImageViewCreationFailed(views.error));
    }
    return Ok(AppResources(index, deviceInfo, queues, info, info.imageFormat, info.imageExtent, images, views.value));
  }
}
