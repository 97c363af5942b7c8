/** Adapter selection (src/core/gpu/wgpu.rs:32-35, 49-103). The process-wide
    `INSTANCE` and `ADAPTER` globals become the fields of one registry object;
    what wgpu enumerates or offers is passed in, since wgpu itself is foreign. */
module Adapters {
  import opened Common

  /** wgpu's `Backend`, printed with `{:?}` as its variant name. */
  datatype Backend = Empty | Vulkan | Metal | Dx12 | Dx11 | Gl | BrowserWebGpu

  /** wgpu's `DeviceType`; `Cpu` is a software rasteriser. */
  datatype DeviceType = Other | IntegratedGpu | DiscreteGpu | VirtualGpu | Cpu

  /** What `Adapter::get_info` reports of an adapter. */
  datatype AdapterInfo = AdapterInfo(name: string, backend: Backend, deviceType: DeviceType)

  function BackendName(b: Backend): string {
    match b
    case Empty => "Empty"
    case Vulkan => "Vulkan"
    case Metal => "Metal"
    case Dx12 => "Dx12"
    case Dx11 => "Dx11"
    case Gl => "Gl"
    case BrowserWebGpu => "BrowserWebGpu"
  }

  const LIST_TAG: string := "[wgpu] "

  /** The list entry `initialize_context` returns: `[wgpu] <name> (<backend>)`.
      The tag leads, the backend closes the entry in parentheses, and the
      adapter's name is what lies between them. */
  function ListName(info: AdapterInfo): (r: string)
    ensures |r| == |LIST_TAG| + |info.name| + |BackendName(info.backend)| + 3
    ensures r[..|LIST_TAG|] == LIST_TAG
    ensures r[|LIST_TAG|..|LIST_TAG| + |info.name|] == info.name
    ensures r[|LIST_TAG| + |info.name|..] == " (" + BackendName(info.backend) + ")"
  {
    LIST_TAG + info.name + " (" + BackendName(info.backend) + ")"
  }

  /** An adapter `initialize_context` accepts: anything but a CPU emulation. */
  predicate IsHardwareAdapter(info: AdapterInfo) {
    info.deviceType != Cpu
  }

  class AdapterRegistry {
    /** `INSTANCE` holds a wgpu instance. */
    var hasInstance: bool
    /** `ADAPTER`: the adapter later pipelines are built on. */
    var adapter: Option<AdapterInfo>

    constructor ()
      ensures !hasInstance && adapter == None
    {
      hasInstance := false;
      adapter := None;
    }

    /** `set_device`: walks the enumeration with a counter and selects the
        adapter at position `index`; out of range, nothing is selected and
        the previous selection stays. */
    method SetDevice(index: nat, enumeration: seq<AdapterInfo>) returns (r: Option<()>)
      modifies this
      ensures hasInstance
      ensures r.Some? <==> index < |enumeration|
      ensures r.Some? ==> adapter == Some(enumeration[index])
      ensures r.None? ==> adapter == old(adapter)
    {
      hasInstance := true;
      var i := 0;
      for k := 0 to |enumeration|
        invariant i == k && i <= index
        invariant adapter == old(adapter)
      {
        if i == index {
          adapter := Some(enumeration[k]);
          return Some(());
        }
        i := i + 1;
      }
      return None;
    }

    /** `initialize_context`: takes the high-performance adapter wgpu offers
        (`requested`), refuses it if there is none or if it is a CPU emulation,
        and otherwise selects it and returns its name and list entry. */
    method InitializeContext(requested: Option<AdapterInfo>) returns (r: Option<(string, string)>)
      modifies this
      ensures hasInstance
      ensures r.Some? <==> requested.Some? && IsHardwareAdapter(requested.value)
      ensures r.Some? ==> adapter == requested && r.value == (requested.value.name, ListName(requested.value))
      ensures r.None? ==> adapter == old(adapter)
    {
      hasInstance := true;
      if requested.None? {
        return None;
      }
      var info := requested.value;
      if info.deviceType == Cpu {
        return None;
      }
      adapter := Some(info);
      return Some((info.name, ListName(info)));
    }
  }
}
