/** `pick_physical_device`: first fit over the enumerated devices, four hard filters. */
module DeviceSelection {
  import opened Wrappers
  import opened Vk

  /** Every name in `DEVICE_EXTENSIONS` is among the device's extensions. */
  predicate HasRequiredExtensions(d: PhysicalDevice) {
    forall e :: e in DEVICE_EXTENSIONS ==> e in d.extensions
  }

  /** The device reports at least one surface format and one present mode. */
  predicate HasSwapchainSupport(d: PhysicalDevice) {
    |d.support.formats| > 0 && |d.support.presentModes| > 0
  }

  /** The four filters of `pick_physical_device`, in the order it applies them. */
  predicate Suitable(d: PhysicalDevice) {
    && d.deviceType == DiscreteGpu
    && d.geometryShader
    && HasRequiredExtensions(d)
    && HasSwapchainSupport(d)
  }

  /** Walks `devices` in enumeration order and returns the index of the first
      one that passes every filter; `None` stands for the panic "Failed to find
      suitable physical device". */
  method PickPhysicalDevice(devices: seq<PhysicalDevice>) returns (r: Option<nat>)
    ensures r.Some? ==> r.value < |devices| && Suitable(devices[r.value])
    ensures r.Some? ==> forall j :: 0 <= j < r.value ==> !Suitable(devices[j])
    ensures r.None? <==> forall j :: 0 <= j < |devices| ==> !Suitable(devices[j])
  {
    for i := 0 to |devices|
      invariant forall j :: 0 <= j < i ==> !Suitable(devices[j])
    {
      var d := devices[i];
      if d.deviceType != DiscreteGpu {
        continue;
      }
      if !d.geometryShader {
        continue;
      }
      if !(forall e <- DEVICE_EXTENSIONS :: e in d.extensions) {
        continue;
      }
      if |d.support.formats| == 0 || |d.support.presentModes| == 0 {
        continue;
      }
      return Some(i);
    }
    return None;
  }
}
