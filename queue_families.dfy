/** `get_queues_indices`: the graphics and present queue family indices. */
module QueueFamilies {
  import opened Wrappers
  import opened Iter
  import opened Vk

  /** `QueueContainer`'s indices (its queue handles come from the driver). */
  datatype QueueFamilyIndices = QueueFamilyIndices(graphicsIndex: u32, presentIndex: u32)

  /** `p.queue_flags.contains(vk::QueueFlags::GRAPHICS)` */
  predicate SupportsGraphics(f: QueueFamily) {
    f.graphics
  }

  /** `get_physical_device_surface_support_khr(device, index, surface)` */
  predicate SupportsPresent(f: QueueFamily) {
    f.presentSupported
  }

  /** Both indices as two independent `position` searches: the first family
      with GRAPHICS and the first with surface support. */
  function ResolvedQueueIndices(families: seq<QueueFamily>): Option<QueueFamilyIndices>
    requires FamilyCountFits(families)
  {
    match (Position(families, SupportsGraphics), Position(families, SupportsPresent))
    case (Some(g), Some(p)) => Some(QueueFamilyIndices(g as u32, p as u32))
    case _ => None
  }

  /** The graphics index is the first family with the GRAPHICS flag, found by
      `position`; the present index is the first family one scan finds with
      surface support, and the scan returns there when a graphics family
      exists. `None` stands for the panic "Missing required queue families". */
  method GetQueueIndices(families: seq<QueueFamily>) returns (r: Option<QueueFamilyIndices>)
    requires FamilyCountFits(families)
    ensures r.Some? ==> IsFirst(families, SupportsGraphics, r.value.graphicsIndex)
    ensures r.Some? ==> IsFirst(families, SupportsPresent, r.value.presentIndex)
    ensures r.None? <==> NoneMatch(families, SupportsGraphics) || NoneMatch(families, SupportsPresent)
    ensures r == ResolvedQueueIndices(families)
  {
    var graphics: Option<u32> :=
      match Position(families, SupportsGraphics)
      case None => None
      case Some(i) => Some(i as u32);
    var present: Option<u32> := None;
    for index := 0 to |families|
      invariant graphics.Some? ==> forall j :: 0 <= j < index ==> !SupportsPresent(families[j])
    {
      if SupportsPresent(families[index]) {
        present := Some(index as u32);
        if graphics.Some? && present.Some? {
          r := Some(QueueFamilyIndices(graphics.value, present.value));
          FirstIsPosition(families, SupportsPresent, index);
          return;
        }
      }
    }
    return None;
  }
}
