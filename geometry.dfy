/** The data the wrapper is built from and fed with, the geometry validation
    of `WgpuWrapper::new`, and the size and row-alignment arithmetic that fixes
    every buffer's size at build time (src/core/gpu/wgpu.rs:105-164, 249-265). */
module Geometry {
  import opened Common
  import opened Shader

  /** wgpu's `COPY_BYTES_PER_ROW_ALIGNMENT`: rows of a texture-to-buffer copy
      must start at multiples of this many bytes. */
  const COPY_BYTES_PER_ROW_ALIGNMENT: int := 256
  /** Widths above this are refused. */
  const MAX_WIDTH: int := 8192
  /** Heights below this are refused. */
  const MIN_HEIGHT: int := 4
  /** A row-correction matrix is 3 x 3 `f32` values, i.e. 36 bytes. */
  const MATRIX_FLOATS: int := 9
  const F32_BYTES: int := 4
  const MATRIX_BYTES: int := MATRIX_FLOATS * F32_BYTES
  /** Bit 3 of the flags word switches the drawing overlay on. */
  const OVERLAY_FLAG: bv32 := 8
  /** Size of the overlay buffer when the overlay is off. */
  const DISABLED_DRAWING_SIZE: nat := 16

  /** The integer part of the kernel's parameter block (the floating-point
      camera and lens fields are not modelled). `flags` is the `i32` flags
      word seen as its 32 bits, so `&` is Rust's bitwise and. */
  datatype KernelParams = KernelParams(
    width: i32, height: i32, stride: i32,
    outputWidth: i32, outputHeight: i32, outputStride: i32,
    interpolation: i32, flags: bv32)

  /** `(width, height, stride)` of a host-side image, all `usize`. */
  datatype Size3 = Size3(width: nat, height: nat, stride: nat)

  /** Where the pixels live. Foreign API handles are opaque numbers here. */
  datatype BufferSource =
    | NoBuffers                                  // BufferSource::None
    | Cpu(input: seq<byte>, output: array<byte>) // host byte slices
    | OpenGL(texture: nat)
    | DirectX(texture: nat)
    | OpenCL(texture: nat)
    | Vulkan(texture: nat)

  datatype BufferDescription = BufferDescription(inputSize: Size3, outputSize: Size3, buffers: BufferSource)

  /** One 3 x 3 `f32` matrix as the 36 bytes `bytemuck::cast_slice` sees. */
  type Matrix = m: seq<byte> | |m| == MATRIX_BYTES witness seq(MATRIX_BYTES, _ => 0)

  /** The per-frame transform: one matrix per image row, and the parameter
      block for this frame. */
  datatype FrameTransform = FrameTransform(matrices: seq<Matrix>, kernelParams: KernelParams)

  /** The byte image of the matrices, as uploaded to the matrix buffer. */
  function MatrixBytes(ms: seq<Matrix>): (r: seq<byte>)
    ensures |r| == MATRIX_BYTES * |ms|
    ensures forall i, j :: 0 <= i < |ms| && 0 <= j < MATRIX_BYTES ==> r[MATRIX_BYTES * i + j] == ms[i][j]
  {
    if ms == [] then [] else ms[0] + MatrixBytes(ms[1..])
  }

  /** The geometry `new` refuses to build for. */
  predicate GeometryRejected(p: KernelParams) {
    p.height < MIN_HEIGHT || p.outputHeight < MIN_HEIGHT || p.stride < 1
    || p.width > MAX_WIDTH || p.outputWidth > MAX_WIDTH
  }

  predicate OverlayEnabled(p: KernelParams) {
    p.flags & OVERLAY_FLAG == OVERLAY_FLAG
  }

  /** The padding added to each output row, computed as the source does on
      `i32` values with Rust's truncating `%`. Whatever the sign of the
      stride, the padding is below the alignment and brings the stride to a
      multiple of it. */
  function Padding(outputStride: int): (r: int)
    ensures 0 <= r < COPY_BYTES_PER_ROW_ALIGNMENT
    ensures (outputStride + r) % COPY_BYTES_PER_ROW_ALIGNMENT == 0
  {
    Rem(COPY_BYTES_PER_ROW_ALIGNMENT - Rem(outputStride, COPY_BYTES_PER_ROW_ALIGNMENT), COPY_BYTES_PER_ROW_ALIGNMENT)
  }

  /** `output_stride + padding` in `i32` arithmetic. When the sum does not
      wrap, it is the stride rounded up to the alignment. */
  function PaddedOutStride(outputStride: i32): (r: i32)
    ensures 0 <= outputStride && outputStride + Padding(outputStride) <= I32_MAX ==> r == RoundUp(outputStride)
  {
    WrapI32(outputStride + Padding(outputStride))
  }

  /** Reference definition: the least multiple of the alignment that is at
      least `n`. */
  function RoundUp(n: nat): nat {
    (n + COPY_BYTES_PER_ROW_ALIGNMENT - 1) / COPY_BYTES_PER_ROW_ALIGNMENT * COPY_BYTES_PER_ROW_ALIGNMENT
  }

  /** The padding rounds a non-negative stride up to the alignment, and is
      zero exactly when the stride is already aligned. */
  lemma PaddingRoundsUp(n: nat)
    ensures 0 <= Padding(n) < COPY_BYTES_PER_ROW_ALIGNMENT
    ensures n + Padding(n) == RoundUp(n)
    ensures RoundUp(n) % COPY_BYTES_PER_ROW_ALIGNMENT == 0
    ensures n <= RoundUp(n) < n + COPY_BYTES_PER_ROW_ALIGNMENT
    ensures Padding(n) == 0 <==> n % COPY_BYTES_PER_ROW_ALIGNMENT == 0
  {
  }

  /** No smaller aligned value fits the stride. */
  lemma RoundUpIsLeast(n: nat, m: nat)
    requires n <= m && m % COPY_BYTES_PER_ROW_ALIGNMENT == 0
    ensures RoundUp(n) <= m
  {
  }

  /** A 1000-byte row is padded by 24 bytes to 1024. */
  lemma PaddingExample()
    ensures Padding(1000) == 24 && PaddedOutStride(1000) == 1024
  {
  }

  /** The output geometry is small enough that the `i32` arithmetic of `new`
      does not wrap. */
  predicate OutputFitsI32(o: Size3) {
    o.stride <= I32_MAX && o.height <= I32_MAX
    && RoundUp(o.stride) <= I32_MAX && RoundUp(o.stride) * o.height <= I32_MAX
  }

  /** A byte count computed as a product of two counts is a count. Stated
      apart so that the solver need not find this fact inside a larger proof. */
  lemma ProductIsNat(a: nat, b: nat)
    ensures a * b >= 0
  {
  }

  /** The sizes `new` fixes at build time, and the kernel source it compiles. */
  datatype Layout = Layout(
    paddedOutStride: nat,  // u32
    inSize: nat,           // u64
    outSize: nat,
    paramsSize: nat,
    drawingSize: nat,
    stagingSize: nat,
    kernel: string)

  /** The host-side computation of `WgpuWrapper::new`, without the device:
      validation, buffer sizes, overlay handling, row padding and the kernel
      source. `None` is the early return of src/core/gpu/wgpu.rs:108. */
  function Plan(params: KernelParams, shader: ShaderSources, inputSize: Size3, outputSize: Size3, drawingLen: nat): (r: Option<Layout>)
    ensures r.None? <==> GeometryRejected(params)
    ensures r.Some? ==> r.value.paramsSize == MATRIX_BYTES * params.height
  {
    if GeometryRejected(params) then None
    else Some(AcceptedLayout(params, shader, inputSize, outputSize, drawingLen))
  }

  /** The buffer sizes and kernel `new` computes once the geometry is
      accepted. */
  function AcceptedLayout(params: KernelParams, shader: ShaderSources, inputSize: Size3, outputSize: Size3, drawingLen: nat): (l: Layout)
    requires !GeometryRejected(params)
    ensures l.paramsSize == MATRIX_BYTES * params.height
  {
    var maxMatrixCount := MATRIX_FLOATS * params.height;
    assert maxMatrixCount * F32_BYTES == MATRIX_BYTES * params.height >= 0;
    var outputHeight := WrapI32(outputSize.height);
    var outputStride := WrapI32(outputSize.stride);
    var drawingEnabled := OverlayEnabled(params);
    var padded := PaddedOutStride(outputStride);
    var stagingSize := WrapI32(padded * outputHeight);
    ProductIsNat(inputSize.stride, inputSize.height);
    ProductIsNat(outputSize.stride, outputSize.height);
    Layout(
      paddedOutStride := AsU32(padded),
      inSize := inputSize.stride * inputSize.height,
      outSize := outputSize.stride * outputSize.height,
      paramsSize := maxMatrixCount * F32_BYTES,
      drawingSize := if drawingEnabled then drawingLen else DISABLED_DRAWING_SIZE,
      stagingSize := AsU64(stagingSize),
      kernel := AssembleKernel(shader, params.interpolation, drawingEnabled))
  }

  /** For an accepted geometry whose output fits `i32`: the input and output
      sizes are stride times height, the staging rows are the output stride
      rounded up to the alignment, and the staging buffer holds exactly those
      padded rows. */
  lemma PlanLayout(params: KernelParams, shader: ShaderSources, inputSize: Size3, outputSize: Size3, drawingLen: nat)
    requires !GeometryRejected(params) && OutputFitsI32(outputSize)
    ensures var l := Plan(params, shader, inputSize, outputSize, drawingLen).value;
      && l.inSize == inputSize.stride * inputSize.height
      && l.outSize == outputSize.stride * outputSize.height
      && l.paddedOutStride == RoundUp(outputSize.stride)
      && l.paddedOutStride % COPY_BYTES_PER_ROW_ALIGNMENT == 0
      && outputSize.stride <= l.paddedOutStride < outputSize.stride + COPY_BYTES_PER_ROW_ALIGNMENT
      && (l.paddedOutStride == outputSize.stride <==> outputSize.stride % COPY_BYTES_PER_ROW_ALIGNMENT == 0)
      && l.stagingSize == l.paddedOutStride * outputSize.height
  {
    PaddingRoundsUp(outputSize.stride);
    var padded := RoundUp(outputSize.stride);
    assert PaddedOutStride(WrapI32(outputSize.stride)) == padded;
    assert 0 <= padded * outputSize.height;
  }

  /** With the overlay off the overlay buffer is the fixed 16 bytes and the
      kernel has the overlay test folded; with it on, the caller's length is
      kept and the test is left in. */
  lemma PlanOverlay(params: KernelParams, shader: ShaderSources, inputSize: Size3, outputSize: Size3, drawingLen: nat)
    requires !GeometryRejected(params)
    ensures var l := Plan(params, shader, inputSize, outputSize, drawingLen).value;
      && (params.flags & OVERLAY_FLAG != OVERLAY_FLAG ==>
            l.drawingSize == DISABLED_DRAWING_SIZE && l.kernel == AssembleKernel(shader, params.interpolation, false))
      && (params.flags & OVERLAY_FLAG == OVERLAY_FLAG ==>
            l.drawingSize == drawingLen && l.kernel == AssembleKernel(shader, params.interpolation, true))
  {
  }

  /** The matrix check of `undistort_image` compares bytes; it accepts exactly
      the transforms with at most one matrix per input row. */
  lemma MatricesFitIffRows(ms: seq<Matrix>, height: nat)
    ensures |MatrixBytes(ms)| <= MATRIX_BYTES * height <==> |ms| <= height
  {
  }

  /** How `undistort_image` treats each residency: upload from the host,
      render without an upload, or refuse. */
  datatype Residency = HostUpload | NoUpload | Unsupported

  /** The first `match` of `undistort_image`: host buffers are uploaded,
      OpenGL, DirectX and OpenCL handles are refused, and `None` and Vulkan
      go on to the render with nothing uploaded. */
  function Dispatch(src: BufferSource): (r: Residency)
    ensures r == HostUpload <==> src.Cpu?
    ensures r == Unsupported <==> src.OpenGL? || src.DirectX? || src.OpenCL?
  {
    match src
    case NoBuffers => NoUpload
    case Cpu(_, _) => HostUpload
    case OpenGL(_) => Unsupported
    case DirectX(_) => Unsupported
    case OpenCL(_) => Unsupported
    case Vulkan(_) => NoUpload
  }

  /** `is_buffer_supported`: only host buffers are reported as supported. */
  function IsBufferSupported(buffers: BufferDescription): (r: bool)
    ensures r <==> buffers.buffers.Cpu?
  {
    match buffers.buffers
    case NoBuffers => false
    case Cpu(_, _) => true
    case OpenGL(_) => false
    case DirectX(_) => false
    case OpenCL(_) => false
    case Vulkan(_) => false
  }

  /** A supported description is one `undistort_image` uploads from the host;
      Vulkan is processed (nothing uploaded, nothing read back) although it is
      reported as unsupported, and so is `None`. */
  lemma SupportedMeansHostUpload(buffers: BufferDescription)
    ensures IsBufferSupported(buffers) <==> Dispatch(buffers.buffers) == HostUpload
    ensures Dispatch(buffers.buffers) == Unsupported ==> !IsBufferSupported(buffers)
    ensures buffers.buffers.Vulkan? ==> !IsBufferSupported(buffers) && Dispatch(buffers.buffers) == NoUpload
  {
  }
}
