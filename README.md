# Vulkan bootstrap selection rules

This project models the decision rules inside the start-up sequence of the
`rust-vulkan` bootstrap (a winit window plus a Vulkan instance, device and
swapchain). Every Vulkan query and creation call is replaced by its result,
given as plain data or as a function parameter. What is left is a model of
how the program chooses things:

- **Physical device.** The first enumerated device that is a discrete GPU,
  supports geometry shaders, has every extension in `DEVICE_EXTENSIONS`
  (`VK_KHR_swapchain`), and reports at least one surface format and one
  present mode (`DeviceSelection`).
- **Queue families.** The graphics family is the first with the GRAPHICS
  flag. The present family is the first with surface support
  (`QueueFamilies`). The queue-create entries hold one entry per element of
  `{graphics, present}` (`LogicalDevice`).
- **Swapchain description** (`Swapchain`):
  - the preferred surface format, otherwise the first one reported;
  - a fixed FIFO present mode;
  - the current extent, or the window size clamped into the surface's
    bounds;
  - `min_image_count + 1`, capped by a nonzero `max_image_count`;
  - concurrent or exclusive sharing.
- **Image views.** One view per swapchain image, all or nothing
  (`ImageViews`).
- **`App::new`.** The sequence above as one result-returning pipeline
  (`App`).

`Iter` holds the three Rust iterator adapters the rules are built from:
`position`, `find` and `collect` into `Result<Vec<_>, _>`. `Vk` holds the
Vulkan values as datatypes. Each module is one component of `src/main.rs`.
The source's loops stay methods with loop invariants: the device walk, the
present-family scan and the walk over the unique-index set. The mutable image
count and the pushed family list stay mutable variables of a method. The
expression-only helpers are functions.

A panic (`unwrap`, `panic!`, `formats[0]` on an empty list) becomes either an
`Option`/`Result` failure or a precondition. It is a precondition only where
the caller provably never triggers it.

Two details of the code:

- Only `current_extent.width` is tested against the `u32::MAX` sentinel.
  The height is not checked.
- `present` is declared mutable but read only right after it is set. The
  present index is therefore the first supported family, provided a graphics
  family exists.

## Model

| member | source | states |
|---|---|---|
| `Iter.Position` | src/main.rs:407-410 | the result is the index of the first element satisfying the predicate, and it is `None` exactly when no element does |
| `Iter.Find` | src/main.rs:430-436 | the result is the first element satisfying the predicate, and it is `None` exactly when none does |
| `Iter.FirstIsPosition` | src/main.rs:407-410 | the first matching index is unique, so it is what `position` returns |
| `Iter.Collect` | src/main.rs:194-195 | `Ok` exactly when every element is `Ok`, holding all values in order with the same length; otherwise the error of the first `Err`, every earlier element being `Ok` |
| `DeviceSelection.PickPhysicalDevice` | src/main.rs:303-346 | a returned index passes all four filters and every earlier device fails at least one; `None` exactly when no device passes all four |
| `QueueFamilies.GetQueueIndices` | src/main.rs:403-427 | on success, graphics is the lowest index with GRAPHICS and present is the lowest index with surface support, both in range; failure exactly when no family has GRAPHICS or none has surface support; the single early-returning scan gives the same result as two independent `position` searches |
| `LogicalDevice.UniqueQueueCreateInfos` | src/main.rs:354-366 | the entries name exactly the families `{graphics, present}`, none twice; there is one entry when the indices coincide and two otherwise; every entry has the single priority 1.0 |
| `LogicalDevice.CreateLogicalDevice` | src/main.rs:349-401 | fails exactly when queue resolution fails; otherwise carries the first graphics and first present family, unique queue entries for both, and `DEVICE_EXTENSIONS` as the enabled extensions; the indices are those of two independent `position` searches |
| `Swapchain.ChooseSurfaceFormat` | src/main.rs:429-438 | requires a non-empty list; the result is an entry of the list; it is preferred exactly when some entry is, and is then the first preferred entry; otherwise it is `formats[0]` |
| `Swapchain.ChooseSurfaceFormatAnywhere` | src/main.rs:429-438 | the preferred (B8G8R8A8_SRGB, SRGB_NONLINEAR) entry is chosen wherever it stands in the list |
| `Swapchain.ChoosePresentMode` | src/main.rs:440-447 | FIFO for every list of present modes |
| `Swapchain.PresentModeIgnoresMailbox` | src/main.rs:440-447 | advertising MAILBOX, or any further modes, does not change the choice |
| `Swapchain.ChosenPresentModeSupported` | src/main.rs:446 | on a surface supporting FIFO, as Vulkan requires of every surface, the fixed choice is a supported mode |
| `Swapchain.Clamp` | src/main.rs:454 | `min.max(max.min(v))` never falls below `min`; it lies in `[min, max]` when `min <= max`; it is `v` when `v` is in range and the violated bound otherwise; it is `min` when the bounds are inverted |
| `Swapchain.ClampDetermined` | src/main.rs:454 | the case-by-case description of clamping admits only one result, which is `Clamp`'s |
| `Swapchain.ClampIdempotent` | src/main.rs:454 | clamping an already clamped value changes nothing |
| `Swapchain.ChooseExtent` | src/main.rs:449-468 | a width other than `u32::MAX` gives exactly `current_extent`; otherwise each component is the window size clamped into `[min_image_extent, max_image_extent]` |
| `Swapchain.ExtentExamples` | src/main.rs:449-468 | with bounds (64,64)..(4096,4096), window (10000,10000) gives (4096,4096) and window (10,10) gives (64,64) |
| `Swapchain.ImageCount` | src/main.rs:131-135 | `min_image_count + 1` when the maximum is 0 (no limit) or above the minimum; otherwise the nonzero maximum, which is never exceeded |
| `Swapchain.ImageCountExamples` | src/main.rs:131-135 | (2,4) gives 3; (3,3) gives 3; an unlimited maximum gives `min_image_count + 1` |
| `Swapchain.ChooseSharing` | src/main.rs:138-145 | CONCURRENT exactly when the indices differ, with the family list `[graphics, present]` in that order; EXCLUSIVE with an empty list otherwise |
| `Swapchain.SharingIsValid` | src/main.rs:138-145 | under concurrent sharing the family list has more than one entry, all distinct, as Vulkan requires; either way both queue families are covered |
| `Swapchain.ConfigureSwapchain` | src/main.rs:122-161 | the swapchain description holds the image count, format and colour space, extent, sharing mode and family list, and present mode of the rules above, one array layer, colour-attachment usage, the surface's current transform, opaque alpha, and clipping; the whole description is the one `SwapchainInfoFor` derives from the window size, surface queries and queue families |
| `ImageViews.CreateImageViews` | src/main.rs:168-196 | all or nothing: views exist exactly when every per-image creation succeeds, and then there is one view per image in image order; otherwise the error is that of the first failing image, every earlier one having succeeded |
| `App.NewApp` | src/main.rs:85-113 | every outcome is fixed: no suitable device, missing queue families and an overflowing image count are reported exactly when the first suitable device, its `position`-resolved queue families or its `min_image_count` cause them (`PlannedSwapchain`); otherwise it fails with the first image-view error exactly when a view creation fails, and else succeeds with the first suitable device, its first graphics and present families, unique queue entries with `DEVICE_EXTENSIONS` enabled, the swapchain description of the rules above, the driver's images, and one view per image in order |

## Left out

- Instance creation, loader and `Entry` setup, and the validation-layer check
  (src/main.rs:256-301) are Vulkan calls with no decision beyond "panic if the
  layer is missing". The release-only branch names an undefined `layers` and
  does not compile.
- Surface creation, `create_device`, `create_swapchain_khr`,
  `get_swapchain_images_khr` and `get_device_queue` are opaque driver calls.
  Their inputs are modelled as the description records and their results are
  inputs (`swapchainImages`, `createImageView`). The failures (`unwrap` on a
  Vulkan error) of these calls and of the queries
  `enumerate_physical_devices` (src/main.rs:304),
  `enumerate_device_extension_properties` (src/main.rs:325),
  `get_physical_device_surface_capabilities_khr`,
  `get_physical_device_surface_formats_khr`,
  `get_physical_device_surface_present_modes_khr` (src/main.rs:242-250) and
  `get_physical_device_surface_support_khr` (src/main.rs:416) are not
  modelled: the query results are the device records.
- The winit event loop and the 60-frames-per-second pacer (src/main.rs:23-66)
  depend on wall-clock time and `sleep`, so they are not modelled.
- `Drop for App` (src/main.rs:198-210) is driver teardown only. It destroys the
  device before the swapchain and its views, which Vulkan forbids. It keeps no
  property that could be stated, so it is not modelled.
- `render` and `create_pipeline` are empty. `println!` diagnostics are console
  output only.
- When `collect` stops at the first failing image view, the views already
  created are never destroyed, and `unwrap` then panics. Handles are values
  here, so this leak is not visible in the model.
- HashSet iteration order is not modelled: `UniqueQueueCreateInfos` takes the
  set's elements in an unspecified order.
- Physical devices are identified by their index in enumeration order rather
  than by a `vk::PhysicalDevice` handle.
- ImageCount: requires `min_image_count < u32::MAX`. In the only build that
  compiles (debug), `min_image_count + 1` would otherwise overflow and panic.
  `App.NewApp` reports that case as `ImageCountOverflow`.
- ConfigureSwapchain: requires a non-empty format list, because
  `formats[0]` panics on an empty list. `App.NewApp` always meets this,
  because the picked device reports at least one format. It also requires
  `min_image_count < u32::MAX`, for the same overflow as `ImageCount`.
