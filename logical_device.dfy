/** `create_logical_device`: the queue-create entries and the device-create
    description handed to `create_device`. */
module LogicalDevice {
  import opened Wrappers
  import opened Iter
  import opened Vk
  import opened QueueFamilies

  /** `vk::DeviceQueueCreateInfo`: one family, one priority per queue. */
  datatype DeviceQueueCreateInfo = DeviceQueueCreateInfo(queueFamilyIndex: u32, queuePriorities: seq<real>)

  /** `vk::DeviceCreateInfo`; the enabled feature set is the empty builder. */
  datatype DeviceCreateInfo = DeviceCreateInfo(
    queueCreateInfos: seq<DeviceQueueCreateInfo>,
    enabledExtensionNames: seq<string>)

  /** `&[1.0]`: a single queue of top priority in each family. */
  const QUEUE_PRIORITIES: seq<real> := [1.0]

  /** The family indices named by a list of queue-create entries. */
  function Families(infos: seq<DeviceQueueCreateInfo>): set<u32> {
    if |infos| == 0 then {}
    else Families(infos[..|infos| - 1]) + {infos[|infos| - 1].queueFamilyIndex}
  }

  /** No family is named by two entries. */
  predicate DistinctFamilies(infos: seq<DeviceQueueCreateInfo>) {
    forall i, j :: 0 <= i < j < |infos| ==> infos[i].queueFamilyIndex != infos[j].queueFamilyIndex
  }

  /** Inserts both indices into a set and makes one entry per element, in the
      set's (unspecified) iteration order. */
  method UniqueQueueCreateInfos(graphicsIndex: u32, presentIndex: u32)
    returns (infos: seq<DeviceQueueCreateInfo>)
    ensures Families(infos) == {graphicsIndex, presentIndex}
    ensures DistinctFamilies(infos)
    ensures |infos| == if graphicsIndex == presentIndex then 1 else 2
    ensures forall i :: 0 <= i < |infos| ==> infos[i].queuePriorities == QUEUE_PRIORITIES
  {
    var uniqueIndices: set<u32> := {};
    uniqueIndices := uniqueIndices + {graphicsIndex};
    uniqueIndices := uniqueIndices + {presentIndex};
    infos := [];
    var remaining := uniqueIndices;
    while remaining != {}
      invariant EntriesSoFar(infos, uniqueIndices, remaining)
      decreases remaining
    {
      var index :| index in remaining;
      EntryStep(infos, uniqueIndices, remaining, index);
      infos := infos + [DeviceQueueCreateInfo(index, QUEUE_PRIORITIES)];
      remaining := remaining - {index};
    }
    PairSize(graphicsIndex, presentIndex);
  }

  /** The loop invariant of `UniqueQueueCreateInfos`: `infos` holds one entry
      for each index of `unique` already taken out of `remaining`. */
  predicate EntriesSoFar(infos: seq<DeviceQueueCreateInfo>, unique: set<u32>, remaining: set<u32>) {
    && remaining <= unique
    && Families(infos) == unique - remaining
    && (forall i :: 0 <= i < |infos| ==> infos[i].queueFamilyIndex !in remaining)
    && DistinctFamilies(infos)
    && |infos| + |remaining| == |unique|
    && (forall i :: 0 <= i < |infos| ==> infos[i].queuePriorities == QUEUE_PRIORITIES)
  }

  /** Taking one more index out of `remaining` keeps the invariant. */
  lemma EntryStep(infos: seq<DeviceQueueCreateInfo>, unique: set<u32>, remaining: set<u32>, index: u32)
    requires EntriesSoFar(infos, unique, remaining) && index in remaining
    ensures EntriesSoFar(infos + [DeviceQueueCreateInfo(index, QUEUE_PRIORITIES)], unique, remaining - {index})
  {
    var info := DeviceQueueCreateInfo(index, QUEUE_PRIORITIES);
    var extended := infos + [info];
    FamiliesAppend(infos, info);
    assert forall i :: 0 <= i < |infos| ==> extended[i] == infos[i];
    assert |remaining - {index}| == |remaining| - 1;
  }

  /** `{a, b}` has one element when `a == b` and two otherwise. */
  lemma PairSize(a: u32, b: u32)
    ensures |{a} + {b}| == if a == b then 1 else 2
  {
    if a != b {
      assert {a} + {b} == {a, b};
    }
  }

  lemma FamiliesAppend(infos: seq<DeviceQueueCreateInfo>, info: DeviceQueueCreateInfo)
    ensures Families(infos + [info]) == Families(infos) + {info.queueFamilyIndex}
  {
    assert (infos + [info])[..|infos|] == infos;
  }

  /** Resolves the queue families and describes the device to create: the
      unique queue-create entries and the required extensions. `None` stands
      for the panic of `get_queues_indices`. */
  method CreateLogicalDevice(device: PhysicalDevice)
    returns (r: Option<(DeviceCreateInfo, QueueFamilyIndices)>)
    requires FamilyCountFits(device.queueFamilies)
    ensures r.None? <==> NoneMatch(device.queueFamilies, SupportsGraphics)
                         || NoneMatch(device.queueFamilies, SupportsPresent)
    ensures r.Some? ==> IsFirst(device.queueFamilies, SupportsGraphics, r.value.1.graphicsIndex)
    ensures r.Some? ==> IsFirst(device.queueFamilies, SupportsPresent, r.value.1.presentIndex)
    ensures r.Some? ==> Families(r.value.0.queueCreateInfos) == {r.value.1.graphicsIndex, r.value.1.presentIndex}
    ensures r.Some? ==> DistinctFamilies(r.value.0.queueCreateInfos)
    ensures r.Some? ==> r.value.0.enabledExtensionNames == DEVICE_EXTENSIONS
    ensures r.None? <==> ResolvedQueueIndices(device.queueFamilies).None?
    ensures r.Some? ==> ResolvedQueueIndices(device.queueFamilies) == Some(r.value.1)
  {
    var indices := GetQueueIndices(device.queueFamilies);
    if indices.None? {
      return None;
    }
    var queueInfos := UniqueQueueCreateInfos(indices.value.graphicsIndex, indices.value.presentIndex);
    var info := DeviceCreateInfo(queueInfos, DEVICE_EXTENSIONS);
    return Some((info, indices.value));
  }
}
