/** `create_swapchain_image_views`: one view per swapchain image, all or nothing. */
module ImageViews {
  import opened Wrappers
  import opened Iter
  import opened Vk

  datatype ImageViewType = View2D
  datatype ComponentSwizzle = Identity
  datatype ImageAspect = Color

  /** `vk::ComponentMapping`. */
  datatype ComponentMapping = ComponentMapping(r: ComponentSwizzle, g: ComponentSwizzle, b: ComponentSwizzle, a: ComponentSwizzle)

  /** `vk::ImageSubresourceRange`. */
  datatype SubresourceRange = SubresourceRange(
    aspectMask: ImageAspect, baseMipLevel: nat, levelCount: nat, baseArrayLayer: nat, layerCount: nat)

  /** `vk::ImageViewCreateInfo`. */
  datatype ImageViewCreateInfo = ImageViewCreateInfo(
    image: Image, viewType: ImageViewType, format: Format,
    components: ComponentMapping, subresourceRange: SubresourceRange)

  /** The description built for each image: a 2D view in the swapchain's
      format, identity swizzles, colour aspect, mip level 0 and array layer 0. */
  function ViewInfo(image: Image, format: Format): ImageViewCreateInfo {
    ImageViewCreateInfo(
      image, View2D, format,
      ComponentMapping(Identity, Identity, Identity, Identity),
      SubresourceRange(Color, 0, 1, 0, 1))
  }

  /** Maps each image to `create_image_view(ViewInfo(image))` and collects:
      the views in image order when every call succeeds, otherwise the error
      of the first failing call (after which `unwrap` panics). The driver's
      `create_image_view` is the parameter `createImageView`. */
  function CreateImageViews(
    images: seq<Image>, format: Format, createImageView: ImageViewCreateInfo -> Result<ImageView, VkError>)
    : (r: Result<seq<ImageView>, VkError>)
    ensures r.Ok? <==> forall i :: 0 <= i < |images| ==> createImageView(ViewInfo(images[i], format)).Ok?
    ensures r.Ok? ==> |r.value| == |images|
    ensures r.Ok? ==> forall i :: 0 <= i < |images| ==> createImageView(ViewInfo(images[i], format)) == Ok(r.value[i])
    ensures r.Err? ==>
              exists k :: 0 <= k < |images|
                && createImageView(ViewInfo(images[k], format)) == Err(r.error)
                && forall j :: 0 <= j < k ==> createImageView(ViewInfo(images[j], format)).Ok?
  {
    var results := seq(|images|, i requires 0 <= i < |images| => createImageView(ViewInfo(images[i], format)));
    // Names each element by the call it holds, which the quantifiers above mention.
    assert forall i :: 0 <= i < |images| ==> results[i] == createImageView(ViewInfo(images[i], format));
    Collect(results)
  }
}
