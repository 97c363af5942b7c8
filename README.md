# wgpu undistortion wrapper: a Dafny model

This project models the host-side bookkeeping of gyroflow's wgpu backend
(`src/core/gpu/wgpu.rs`). That backend takes a camera frame and undistorts it
on the GPU. The model covers six parts:

- the geometry validation and buffer sizing done by `WgpuWrapper::new`;
- the textual assembly of the WGSL kernel source;
- adapter selection through `set_device` and `initialize_context`;
- the per-frame `undistort_image`, with its checks, uploads and render;
- the readback of the padded staging buffer into the caller's output;
- `is_buffer_supported`.

The GPU is treated as a set of byte stores. The wrapper is a class whose
fields hold the contents of its textures and buffers. The queue writes, the
render pass and the texture-to-buffer copy are assignments to those fields.
What the kernel renders is an input of the model, and so is whether mapping
the staging buffer succeeds.

Modules:

- `Common` holds the `Option` type and bytes, plus Rust's truncating `%`, the
  `as i32` wrap and the `as u32` / `as u64` conversions.
- `Strings` holds `str::replace`, with the facts that say where it replaces
  and what it leaves alone, and decimal formatting with its round trip.
- `Shader` assembles the kernel source.
- `Geometry` holds the parameter block and buffer descriptions, the validation
  and sizing of `new` as the function `Plan`, and the residency dispatch.
- `Readback` holds the padded row layout of the staging buffer.
- `Adapters` holds the adapter registry.
- `Wgpu` holds the `WgpuWrapper` class.

## Model

| member | source | states |
|---|---|---|
| Common.Rem | src/core/gpu/wgpu.rs:157 | Rust's `%` by a positive modulus: the result is strictly inside (-m, m), takes the dividend's sign, and agrees with the Euclidean remainder on non-negative dividends |
| Common.WrapI32 | src/core/gpu/wgpu.rs:110-111 | `as i32` and release-mode `i32` arithmetic: the result is congruent to the input modulo 2^32 and equals it when it is already in `i32` range |
| Common.AsU32 | src/core/gpu/wgpu.rs:264 | `as u32` of an `i32`: a value below 2^32, congruent to the input, and the input itself when it is a `u32` |
| Common.AsU64 | src/core/gpu/wgpu.rs:161 | `as u64` of the staging size: a value below 2^64, congruent to the input, and the input itself when it is non-negative |
| Common.RemQuotient | src/core/gpu/wgpu.rs:157 | the dividend is a whole multiple of the modulus plus Rust's remainder, which with its range and sign fixes the remainder for negative dividends too |
| Strings.ReplaceAll | src/core/gpu/wgpu.rs:140-148 | `str::replace` leaves text in which the pattern does not occur unchanged |
| Strings.ReplaceAround | src/core/gpu/wgpu.rs:140-148 | a middle part at which no occurrence of the pattern starts (not even one running past its end) and which cannot complete one started before it passes through `str::replace` unchanged, and the text on each side is replaced on its own |
| Strings.ReplaceThrough | src/core/gpu/wgpu.rs:140-148 | an occurrence of a pattern that cannot overlap itself is replaced wherever it sits, and the text on each side is replaced on its own |
| Strings.ReplaceLeavesNone | src/core/gpu/wgpu.rs:140-148 | after `str::replace`, a text `p` that the replacement cannot make or complete does not occur, when `p` is the pattern itself or did not occur before |
| Strings.ReplaceSingle | src/core/gpu/wgpu.rs:140-148 | text with exactly one occurrence of the pattern comes out with that occurrence replaced and the text around it unchanged |
| Strings.DigitChar | src/core/gpu/wgpu.rs:144 | a digit below ten is written as a character from `0` to `9` |
| Strings.NatToDecimal | src/core/gpu/wgpu.rs:144 | `{}` of a non-negative number is a non-empty string of decimal digits with no leading zero |
| Strings.IntToDecimal | src/core/gpu/wgpu.rs:144 | `{}` of an `i32` is non-empty, starts with `-` exactly when the number is negative, and is otherwise all digits (the first character too for a non-negative number) with no leading zero |
| Strings.NatDecimalRoundTrip | src/core/gpu/wgpu.rs:144 | parsing the decimal text of a natural number gives that number back |
| Strings.IntDecimalRoundTrip | src/core/gpu/wgpu.rs:144 | parsing the decimal text of an integer gives that integer back |
| Strings.IntDecimalInjective | src/core/gpu/wgpu.rs:144 | different interpolation modes are written as different literals |
| Shader.InterpolationLiteral | src/core/gpu/wgpu.rs:144 | `format!("{}u", ..)` is at least two characters, ends in `u`, and holds only digits, a sign and the suffix |
| Shader.Substituted | src/core/gpu/wgpu.rs:133-144 | after the four unconditional replacements no `params.interpolation` is left, whatever the template and the spliced texts hold |
| Shader.AssembleKernel | src/core/gpu/wgpu.rs:133-149 | the kernel handed to the compiler holds no `params.interpolation`, and with the overlay off no `bool(params.flags & 8)` either |
| Shader.AssemblePlainTemplate | src/core/gpu/wgpu.rs:133-149 | a template holding none of the placeholders is compiled verbatim |
| Shader.AssembleSplicesLensFunctions | src/core/gpu/wgpu.rs:136-140 | for any template `pre + LENS_MODEL_FUNCTIONS; + post`, the kernel is the kernel of `pre`, then the distortion model's functions followed by the digital lens's functions (or the two identity functions when there is no digital lens), then the kernel of `post` |
| Shader.AssembleSubstitutesScalar | src/core/gpu/wgpu.rs:141 | for any template `pre + SCALAR + post`, the kernel is the kernel of `pre`, the format's scalar type, then the kernel of `post` |
| Shader.AssembleSubstitutesBgScaler | src/core/gpu/wgpu.rs:142 | for any template `pre + bg_scaler + post`, the kernel is the kernel of `pre`, the rendered background scale, then the kernel of `post` |
| Shader.AssembleInlinesInterpolation | src/core/gpu/wgpu.rs:143-144 | for any template `pre + params.interpolation + post`, the kernel is the kernel of `pre`, the mode's decimal value followed by `u`, then the kernel of `post` |
| Shader.AssembleFoldsOverlayTest | src/core/gpu/wgpu.rs:146-149 | for any template `pre + bool(params.flags & 8) + post`, the kernel is the kernel of `pre`, then `false` with the overlay off or the test itself with it on, then the kernel of `post` |
| Geometry.MatrixBytes | src/core/gpu/wgpu.rs:272 | `bytemuck::cast_slice` of the matrices: 36 bytes per matrix, and byte j of matrix i sits at offset 36 i + j |
| Geometry.MatricesFitIffRows | src/core/gpu/wgpu.rs:308 | the byte-size check against `params_size` accepts a transform exactly when it has at most one matrix per input row |
| Geometry.Plan | src/core/gpu/wgpu.rs:105-164 | `Plan` gives no layout exactly when the height, output height, stride or widths are out of bounds; the matrix buffer is 36 bytes per input row |
| Geometry.Padding | src/core/gpu/wgpu.rs:157 | for any `i32` stride, negative ones included, the truncating-`%` padding is below 256 and brings the stride to a multiple of 256 |
| Geometry.PaddedOutStride | src/core/gpu/wgpu.rs:158 | when the `i32` sum does not wrap, the padded stride of a non-negative stride is that stride rounded up to a multiple of 256 |
| Geometry.PaddingRoundsUp | src/core/gpu/wgpu.rs:156-158 | for a non-negative stride, the padding is below 256, the padded stride is the stride rounded up to a multiple of 256 and is less than 256 above it, and the padding is zero exactly when the stride is aligned |
| Geometry.RoundUpIsLeast | src/core/gpu/wgpu.rs:156-158 | no multiple of 256 between the stride and the padded stride is smaller than the padded stride |
| Geometry.PaddingExample | src/core/gpu/wgpu.rs:156-158 | a 1000-byte row is padded by 24 bytes to 1024 |
| Geometry.PlanLayout | src/core/gpu/wgpu.rs:110-161 | for an accepted geometry whose output fits `i32`: the input and output sizes are stride times height, the padded stride is the least aligned value at or above the stride, it equals the stride exactly when the stride is aligned, and the staging buffer is the padded stride times the output height |
| Geometry.PlanOverlay | src/core/gpu/wgpu.rs:117-149 | with flag bit 8 clear, the overlay buffer is 16 bytes and the kernel has the overlay test folded; with it set, the caller's length is kept and the test stays |
| Geometry.Dispatch | src/core/gpu/wgpu.rs:274-306 | the first `match` uploads exactly the host buffers and refuses exactly the OpenGL, DirectX and OpenCL handles; `None` and Vulkan render with nothing uploaded |
| Geometry.IsBufferSupported | src/core/gpu/wgpu.rs:401-411 | only host (`Cpu`) buffers are reported as supported |
| Geometry.SupportedMeansHostUpload | src/core/gpu/wgpu.rs:401-411 | the supported descriptions are exactly those `undistort_image` uploads from the host; every refused residency is unsupported; Vulkan is processed although it is reported unsupported |
| Readback.RowOffsetIsProduct | src/core/gpu/wgpu.rs:381-382 | the offset of row `row` counted row by row is `row * pitch`, the product the source computes |
| Readback.EarlierRowEnds | src/core/gpu/wgpu.rs:381-382 | a row before row `last` ends at or before the start of row `last`, so the chunks do not overlap |
| Readback.Stripe | src/core/gpu/wgpu.rs:338-354 | the texture-to-buffer copy produces exactly the padded size: the padded stride times the height |
| Readback.Destripe | src/core/gpu/wgpu.rs:380-385 | copying out the first `stride` bytes of each padded row produces exactly stride times height bytes |
| Readback.DestripeNextRow | src/core/gpu/wgpu.rs:380-385 | copying one more row extends the output by that row's first `stride` bytes |
| Readback.DestripeLastRow | src/core/gpu/wgpu.rs:383-385 | the last output row is the first `stride` bytes of the last staging row |
| Readback.DestripeFront | src/core/gpu/wgpu.rs:380-385 | the output rows before the last are those read from the staging rows before the last |
| Readback.DestripeAt | src/core/gpu/wgpu.rs:383-385 | output byte c of row r is staging byte r times padded stride plus c, for every c below the stride |
| Readback.FrontRowsAgree | src/core/gpu/wgpu.rs:380-385 | two buffers whose row bytes agree still agree once the last row is dropped |
| Readback.LastRowAgrees | src/core/gpu/wgpu.rs:383-385 | two buffers whose row bytes agree have the same last row |
| Readback.DestripeIgnoresPadding | src/core/gpu/wgpu.rs:383-385 | two staging buffers that agree outside the padding read back to the same output |
| Readback.DestripeUnpadded | src/core/gpu/wgpu.rs:368-370 | when the padded stride equals the stride, the row-by-row copy equals the fast path's single copy |
| Readback.DestripeStripe | src/core/gpu/wgpu.rs:338-385 | reading back what the texture-to-buffer copy wrote gives the rendered frame, whatever the padding held |
| Adapters.ListName | src/core/gpu/wgpu.rs:98 | the entry `initialize_context` returns starts with `[wgpu] `, then holds the adapter's name, then the backend in parentheses |
| Adapters.AdapterRegistry.SetDevice | src/core/gpu/wgpu.rs:49-68 | an instance exists afterwards; it returns `Some` exactly when the index is within the enumeration, the adapter at that index is then selected, and otherwise the previous selection stays |
| Adapters.AdapterRegistry.InitializeContext | src/core/gpu/wgpu.rs:79-103 | it succeeds exactly when an adapter is offered that is not a CPU emulation; it then selects it and returns its name and `[wgpu] name (backend)`; otherwise the selection is unchanged |
| Wgpu.WgpuWrapper.New | src/core/gpu/wgpu.rs:105-268 | a rejected geometry returns nothing and leaves the registry alone; otherwise a missing adapter is first initialised; a wrapper is returned exactly when the geometry is accepted, an adapter is selected and the device request succeeds; the registry then has an instance exactly when it had one or had no adapter; its sizes and kernel are those of `Plan`, and its stores satisfy the class invariant when the output fits `i32` |
| Wgpu.WriteBuffer | src/core/gpu/wgpu.rs:310-314 | `queue.write_buffer(buf, 0, data)`: byte i of the buffer becomes byte i of the data below the data's length and keeps its old value from there on, so the buffer's length is unchanged |
| Wgpu.WgpuWrapper.UndistortImage | src/core/gpu/wgpu.rs:271-398 | it returns true exactly when the host sizes match, the residency is not refused, the matrices fit, the overlay data fits, and (for host buffers) mapping succeeds; each store's new content is stated for each outcome; on success the host output is the rendered frame; on failure the host output is untouched |
| Wgpu.WgpuWrapper.ReadBack | src/core/gpu/wgpu.rs:366-386 | the output becomes the staging buffer with each row's padding dropped, on the fast path (one copy, when the padded stride equals the stride) and on the row-by-row path alike |
| Wgpu.WgpuWrapper.CopyRows | src/core/gpu/wgpu.rs:371-385 | the padded path: after walking the rows, the output is the staging buffer with each row's padding dropped |
| Wgpu.WgpuWrapper.CopyRow | src/core/gpu/wgpu.rs:383-385 | one row's `copy_from_slice`: the output row becomes the staging row's first `stride` bytes, and the bytes before and after that row are untouched |

## Left out

- The wgpu device, queue, pipeline, bind group, texture views and shader compilation are foreign code. `new` takes the outcome of the device request as the boolean `deviceOk`.
- The WGSL kernel and its arithmetic are not modelled. The bytes the render pass leaves in the output texture are the parameter `rendered`.
- `map_async`, `device.poll` and the oneshot channel are not modelled. Their outcome is the parameter `mapOk`.
- `unmap` of the staging buffer is not modelled, because it changes no bytes.
- The rayon parallel row copy is modelled as a sequential loop over rows. The rows are disjoint, so the order does not matter to the result.
- The `RwLock` globals `INSTANCE` and `ADAPTER` are the fields of one `AdapterRegistry` object. Locking and concurrent callers are not modelled.
- `list_devices` and `get_info` are not modelled. Both format adapter names for display as `name (backend)`, without the `[wgpu] ` tag; `ListName` is the entry `initialize_context` returns, which carries the tag. `list_devices` also creates a new wgpu instance and stores it in the `INSTANCE` global, which `set_device` and `initialize_context` then reuse; that effect on `AdapterRegistry.hasInstance` is not modelled.
- `Adapters.AdapterRegistry.SetDevice`: the adapter enumeration is a parameter, because it comes from wgpu. The `debug!` log is not modelled.
- Logging (`log::error!`, `log::debug!`) is not modelled.
- The background scale's `{:.6}` formatting is floating point, so it is left out. The shader sources carry it already rendered as text.
- The floating-point fields of `KernelParams` and the `f32` values of the matrices are not modelled. The matrices are their raw bytes.
- The coefficient buffer initialised from `COEFFS` is not modelled, because it is constant data.
- `usize` overflow in `in_size` and `out_size` and in `9 * height` is not modelled. These sizes are unbounded integers. The `i32` arithmetic of the padding and staging size is modelled, with release-mode wrap-around.
- `Wgpu.WgpuWrapper.New`: the class invariant is promised only when the output stride, padded stride and staging size fit `i32`. Outside that range the source's `i32` wrap gives sizes that do not describe the output rows.
- `Wgpu.WgpuWrapper.UndistortImage` requires, for host buffers only, the call-time output stride and height to equal those the wrapper was built for; calls with other residencies may pass any output geometry, since those paths never read it. The source does not check this. A host call with other sizes either fails in wgpu or `copy_from_slice` (when the copy extent or a chunk does not fit), or, when the total still equals `out_size`, copies rows of the call-time stride out of the staging rows laid out for the built stride. That rearranged readback is not modelled.
- `Wgpu.WgpuWrapper.UndistortImage` models `write_texture` of the input as a copy of the whole host buffer into the input texture. Texture row pitch and format are not modelled.
- `Wgpu.WgpuWrapper.UndistortImage` assumes the output texture's rows are packed at the output stride. The texture-to-buffer copy is modelled that way.
- `Wgpu.WgpuWrapper.UndistortImage`: the parameter block is stored as its value rather than as `bytes_of` its bytes.
- A debug build panics on `i32` overflow where the model wraps, as a release build does.
- `params_size` is computed from the input height (`params.height`), not the output height.
- The input texture is written before the matrix check, and the matrix and parameter buffers before the overlay check. A later `false` therefore leaves those earlier writes in place.
- `Shader.AssembleSplicesLensFunctions`, `Shader.AssembleSubstitutesScalar`, `Shader.AssembleSubstitutesBgScaler`: each requires the spliced text not to hold, or be able to complete, a placeholder replaced after it, since later replacements also run over the spliced text. The distortion models' WGSL functions are not part of this model, so this is not proved for them.
- `src/rendering/ffmpeg_audio.rs` is not part of this model.
