/** The undistortion pipeline object `WgpuWrapper` (src/core/gpu/wgpu.rs:13-30,
    105-398). The GPU is an abstract store of byte buffers: each texture and
    buffer the wrapper owns is a field holding its bytes, and the queue's
    writes, the render pass and the texture-to-buffer copy are assignments to
    those fields. What the shader renders is an input (`rendered`), and so is
    whether mapping the staging buffer succeeds (`mapOk`). */
module Wgpu {
  import opened Common
  import opened Shader
  import opened Geometry
  import opened Readback
  import Adapters

  /** `queue.write_buffer(buf, 0, data)`: the first bytes are replaced, the
      rest of the buffer keeps its contents. */
  function WriteBuffer(buf: seq<byte>, data: seq<byte>): (r: seq<byte>)
    requires |data| <= |buf|
    ensures |r| == |buf|
    ensures forall i :: 0 <= i < |r| ==> r[i] == if i < |data| then data[i] else buf[i]
  {
    data + buf[|data|..]
  }

  /** The caller's output array, when the pixels are host buffers. */
  function HostOutput(src: BufferSource): set<array<byte>> {
    if src.Cpu? then {src.output} else {}
  }

  class WgpuWrapper {
    /** Sizes fixed when the wrapper was built. */
    const paddedOutStride: nat
    const inSize: nat
    const outSize: nat
    const paramsSize: nat
    const drawingSize: nat
    /** The output geometry the output texture and staging buffer were made for. */
    const outputStride: nat
    const outputHeight: nat
    /** The source the shader module was compiled from. */
    const kernel: string

    /** GPU-side stores: input texture, matrix, parameter and overlay
        buffers, output texture, and the host-mappable staging buffer. */
    var inPixels: seq<byte>
    var bufMatrices: seq<byte>
    var bufParams: KernelParams
    var bufDrawing: seq<byte>
    var outPixels: seq<byte>
    var staging: seq<byte>

    /** Every store has the size it was created with, and the staging rows
        are at least as long as the output rows: the output holds
        `outputHeight` rows of `outputStride` bytes, the staging buffer as
        many rows of `paddedOutStride` bytes. */
    ghost predicate Valid()
      reads this
    {
      && outputStride <= paddedOutStride < TWO_TO_32
      && outSize == RowOffset(outputHeight, outputStride)
      && |inPixels| == inSize
      && |bufMatrices| == paramsSize
      && |bufDrawing| == drawingSize
      && |outPixels| == outSize
      && |staging| == RowOffset(outputHeight, paddedOutStride)
    }

    /** The stores as wgpu creates them: zero-filled, of the planned sizes. */
    constructor (layout: Layout, outputSize: Size3)
      ensures paddedOutStride == layout.paddedOutStride && inSize == layout.inSize
      ensures outSize == layout.outSize && paramsSize == layout.paramsSize
      ensures drawingSize == layout.drawingSize && kernel == layout.kernel
      ensures outputStride == outputSize.stride && outputHeight == outputSize.height
      ensures |staging| == layout.stagingSize && |outPixels| == layout.outSize
      ensures |inPixels| == inSize && |bufMatrices| == paramsSize && |bufDrawing| == drawingSize
    {
      paddedOutStride := layout.paddedOutStride;
      inSize := layout.inSize;
      outSize := layout.outSize;
      paramsSize := layout.paramsSize;
      drawingSize := layout.drawingSize;
      outputStride := outputSize.stride;
      outputHeight := outputSize.height;
      kernel := layout.kernel;
      inPixels := seq(layout.inSize, _ => 0);
      bufMatrices := seq(layout.paramsSize, _ => 0);
      bufParams := KernelParams(0, 0, 0, 0, 0, 0, 0, 0);
      bufDrawing := seq(layout.drawingSize, _ => 0);
      outPixels := seq(layout.outSize, _ => 0);
      staging := seq(layout.stagingSize, _ => 0);
    }

    /** `WgpuWrapper::new`. A refused geometry returns nothing before the
        registry is touched. Otherwise, when no adapter is selected yet,
        `initialize_context` runs with the adapter wgpu offers (`offered`);
        without a selected adapter, or when the device request fails
        (`deviceOk` false), nothing is returned. */
    static method New(registry: Adapters.AdapterRegistry, params: KernelParams, shader: ShaderSources,
                      inputSize: Size3, outputSize: Size3, drawingLen: nat,
                      offered: Option<Adapters.AdapterInfo>, deviceOk: bool)
      returns (w: WgpuWrapper?)
      modifies registry
      ensures GeometryRejected(params) ==>
        w == null && registry.adapter == old(registry.adapter) && registry.hasInstance == old(registry.hasInstance)
      ensures !GeometryRejected(params) ==>
        registry.adapter == (if old(registry.adapter).None? && offered.Some? && Adapters.IsHardwareAdapter(offered.value)
                             then offered else old(registry.adapter))
        && registry.hasInstance == (old(registry.hasInstance) || old(registry.adapter).None?)
      ensures w != null <==> !GeometryRejected(params) && registry.adapter.Some? && deviceOk
      ensures w != null ==>
        var l := Plan(params, shader, inputSize, outputSize, drawingLen).value;
        && fresh(w)
        && w.paddedOutStride == l.paddedOutStride && w.inSize == l.inSize && w.outSize == l.outSize
        && w.paramsSize == l.paramsSize && w.drawingSize == l.drawingSize && w.kernel == l.kernel
        && w.outputStride == outputSize.stride && w.outputHeight == outputSize.height
        && |w.staging| == l.stagingSize
      ensures w != null && OutputFitsI32(outputSize) ==> w.Valid()
    {
      var layout := Plan(params, shader, inputSize, outputSize, drawingLen);
      if layout.None? {
        return null;
      }
      if registry.adapter.None? {
        var _ := registry.InitializeContext(offered);
      }
      if registry.adapter.None? || !deviceOk {
        return null;
      }
      w := new WgpuWrapper(layout.value, outputSize);
      if OutputFitsI32(outputSize) {
        PlanLayout(params, shader, inputSize, outputSize, drawingLen);
        RowOffsetIsProduct(outputSize.height, outputSize.stride);
        RowOffsetIsProduct(outputSize.height, layout.value.paddedOutStride);
      }
    }

    /** The host buffers have the sizes fixed at build time (vacuous for
        other residencies). */
    predicate HostSizesMatch(src: BufferSource) {
      src.Cpu? ==> |src.input| == inSize && src.output.Length == outSize
    }

    /** The size and residency checks passed, so the matrices and
        parameters reach their buffers. */
    predicate WritesMatrices(src: BufferSource, itm: FrameTransform) {
      HostSizesMatch(src) && Dispatch(src) != Unsupported && |MatrixBytes(itm.matrices)| <= paramsSize
    }

    /** Every check passed, so the render pass runs. */
    predicate Renders(src: BufferSource, itm: FrameTransform, drawingBuffer: seq<byte>) {
      WritesMatrices(src, itm) && (|drawingBuffer| == 0 || |drawingBuffer| <= drawingSize)
    }

    /** `undistort_image`: the checks in the source's order, each an early
        `false`; the uploads; the render; and for host buffers the readback
        into the caller's output, which is changed only on success. */
    method UndistortImage(buffers: BufferDescription, itm: FrameTransform, drawingBuffer: seq<byte>,
                          rendered: seq<byte>, mapOk: bool)
      returns (ok: bool)
      requires Valid()
      requires buffers.buffers.Cpu? ==>
        buffers.outputSize.stride == outputStride && buffers.outputSize.height == outputHeight
      requires |rendered| == outSize
      modifies this, HostOutput(buffers.buffers)
      ensures Valid()
      ensures ok <==> Renders(buffers.buffers, itm, drawingBuffer) && (buffers.buffers.Cpu? ==> mapOk)
      ensures inPixels == if buffers.buffers.Cpu? && HostSizesMatch(buffers.buffers)
                          then buffers.buffers.input else old(inPixels)
      ensures bufMatrices == if WritesMatrices(buffers.buffers, itm)
                             then WriteBuffer(old(bufMatrices), MatrixBytes(itm.matrices)) else old(bufMatrices)
      ensures bufParams == if WritesMatrices(buffers.buffers, itm) then itm.kernelParams else old(bufParams)
      ensures bufDrawing == if WritesMatrices(buffers.buffers, itm) && 0 < |drawingBuffer| <= drawingSize
                            then WriteBuffer(old(bufDrawing), drawingBuffer) else old(bufDrawing)
      ensures outPixels == if Renders(buffers.buffers, itm, drawingBuffer) then rendered else old(outPixels)
      ensures staging == if Renders(buffers.buffers, itm, drawingBuffer) && buffers.buffers.Cpu?
                         then Stripe(rendered, old(staging), paddedOutStride, outputStride, outputHeight)
                         else old(staging)
      ensures buffers.buffers.Cpu? && ok ==>
        buffers.buffers.output[..] == Destripe(staging, paddedOutStride, outputStride, outputHeight)
        && buffers.buffers.output[..] == rendered
      ensures buffers.buffers.Cpu? && !ok ==> buffers.buffers.output[..] == old(buffers.buffers.output[..])
    {
      var src := buffers.buffers;
      var matrices := MatrixBytes(itm.matrices);
      match src {
        case NoBuffers =>
        case Cpu(input, output) =>
          if inSize != |input| { return false; }
          if outSize != output.Length { return false; }
          inPixels := input;
        case OpenCL(_) =>
          return false;
        case DirectX(_) =>
          return false;
        case OpenGL(_) =>
          return false;
        case Vulkan(_) =>
      }

      if paramsSize < |matrices| { return false; }
      bufMatrices := WriteBuffer(bufMatrices, matrices);
      bufParams := itm.kernelParams;
      if |drawingBuffer| != 0 {
        if drawingSize < |drawingBuffer| { return false; }
        bufDrawing := WriteBuffer(bufDrawing, drawingBuffer);
      }

      // The render pass: clear, draw the full-screen quad with the kernel.
      outPixels := rendered;
      if src.Cpu? {
        // The texture-to-buffer copy at the padded row pitch.
        staging := Stripe(outPixels, staging, paddedOutStride, outputStride, outputHeight);
      }

      if src.Cpu? {
        if mapOk {
          ReadBack(src.output, buffers.outputSize.stride);
          DestripeStripe(rendered, old(staging), paddedOutStride, outputStride, outputHeight);
        } else {
          return false;
        }
      }
      return true;
    }

    /** Copies the mapped staging buffer into the caller's output: in one
        piece when rows carry no padding, otherwise row by row, dropping each
        row's padding. */
    method ReadBack(output: array<byte>, stride: nat)
      requires Valid() && output.Length == outSize && stride == outputStride
      modifies output
      ensures output[..] == Destripe(staging, paddedOutStride, outputStride, outputHeight)
    {
      if paddedOutStride == AsU32(stride) {
        forall i | 0 <= i < output.Length {
          output[i] := staging[i];
        }
        DestripeUnpadded(staging, outputStride, outputHeight);
      } else {
        CopyRows(output);
      }
    }

    /** The padded path: the staging buffer and the output are walked in
        chunks of `paddedOutStride` and `outputStride` bytes, and each output
        row receives the first `outputStride` bytes of its staging row. */
    method CopyRows(output: array<byte>)
      requires Valid() && output.Length == outSize
      modifies output
      ensures output[..] == Destripe(staging, paddedOutStride, outputStride, outputHeight)
    {
      var r := 0;
      while r < outputHeight
        invariant 0 <= r <= outputHeight
        invariant RowOffset(r, outputStride) <= output.Length && RowOffset(r, paddedOutStride) <= |staging|
        invariant output[..RowOffset(r, outputStride)]
               == Destripe(staging[..RowOffset(r, paddedOutStride)], paddedOutStride, outputStride, r)
      {
        EarlierRowEnds(r, outputHeight, outputStride);
        DestripeNextRow(staging, paddedOutStride, outputStride, outputHeight, r);
        var from, to := RowOffset(r, paddedOutStride), RowOffset(r, outputStride);
        ghost var copied := output[..to];
        CopyRow(output, from, to);
        assert output[..RowOffset(r + 1, outputStride)] == copied + staging[from..from + outputStride];
        r := r + 1;
      }
      assert output[..] == output[..RowOffset(outputHeight, outputStride)];
      assert staging == staging[..RowOffset(outputHeight, paddedOutStride)];
    }

    /** `dest.copy_from_slice(&src[0..stride])` for one row: the staging row
        starting at `from` lands at `to`; the bytes outside that row are untouched. */
    method CopyRow(output: array<byte>, from: nat, to: nat)
      requires from + outputStride <= |staging| && to + outputStride <= output.Length
      modifies output
      ensures output[..to + outputStride] == old(output[..to]) + staging[from..from + outputStride]
      ensures output[to + outputStride..] == old(output[to + outputStride..])
    {
      forall c | 0 <= c < outputStride {
        output[to + c] := staging[from + c];
      }
    }
  }
}
