# SDICL: device selection and shader-texture bookkeeping in Dafny

SDICL is a header-only convenience layer over OpenCL and SDL2. It picks a
compute device, builds an OpenCL program from a list of kernel files, and
runs a kernel over a CPU-side pixel buffer before the buffer is copied to an
SDL streaming texture. Almost all of it is foreign calls. This project models
the parts that have logic of their own, with the runtimes abstracted away:

- **Device selection** (`getSemiIdealDevice`), module `DeviceSelection`.
  Enumeration is an input: a sequence of platforms, each a sequence of
  `(compute units, clock frequency)` pairs in the runtime's order. A device's
  score is the product taken modulo 2^32, as in `unsigned int`. The nested
  loop keeps a running maximum that starts at 0 and is replaced only on a
  strictly greater score. The `ensures` of `GetSemiIdealDevice` state its
  result against `IsFirstBest` and `NoPositiveScore`. `IsFirstBest` says the
  chosen device scores positive, no device beats it, and every device
  enumerated before it scores strictly less. `MaxScore` is a second,
  recursive definition, the maximum of all scores. The lemma
  `FirstBestScoresMaxScore` links it to `IsFirstBest`, so a caller that
  invokes it learns that the selected device scores `MaxScore`. The result
  `None` stands for the default-constructed `cl::Device` that
  `getSemiIdealDevice` returns. It comes back exactly when no device scores
  above 0, which includes the case of no devices at all.
- **Compute context** (class `OCL`), module `ComputeContext`, class `Ocl`.
  It holds the chosen device and the program sources, one entry per kernel
  file in the order given. `readFile` is a function parameter. With the C++
  bindings' default `cl::Program::Sources` (a vector of strings), each entry
  is its own copy of the file's text. The command queue is modelled as the
  sequence of commands enqueued on it.
- **Shader texture** (class `SDL_ShaderTexture`), module `ShaderTextures`,
  class `ShaderTexture`. It has the rectangle, the pixel byte array, the
  GPU buffer's contents, the bound kernel with its argument table (slot to
  value), and the shader name. `Valid()` is the size invariant: the CPU and
  GPU buffers both hold `w * h * 4` bytes, and that product fits in `int`.
  The constructor sizes and zero-fills the buffer. `Blank` zeroes it in
  place. `SetShader` binds a fresh kernel with the pixel buffer, width and
  height in slots 0-2. `Shade` records the four queue commands: a full write,
  a dispatch of `w * h` work items, a finish, and a full read back. The
  kernel's effect on the buffer is an uninterpreted function parameter.

`getSemiIdealDevice` itself signals nothing when no device qualifies; it
returns a default device. The `OCL` constructor then goes on with that null
device, and its build step fails and exits the process (see "Left out"). The
kernel files are not concatenated: the constructor keeps one source entry per
file, and all of them are built as one program.

## Model

| member | source | states |
|---|---|---|
| DeviceSelection.GetSemiIdealDevice | SDICL.h:16-36 | Returns None exactly when no device scores above 0, including when there are no devices. Otherwise it returns the first maximum in platform-then-device order: positive score, no device scores higher, and every earlier device scores strictly lower. |
| DeviceSelection.FirstBestScoresMaxScore | SDICL.h:22-34 | The two specifications agree: no device scores above 0 exactly when MaxScore is 0, and the first maximum's score is MaxScore. |
| DeviceSelection.Score | SDICL.h:27 | The `unsigned int` product wraps: the score is at most units x clock and differs from it by a multiple of 2^32. ScoreIsProductBelowWrap and WrappedScoreLosesToWeakerDevice state the two sides of this. |
| DeviceSelection.PlatformMax | SDICL.h:26-33 | The running maximum over one platform's devices: every device scores at most it, and it is 0 or the score of some device. |
| DeviceSelection.MaxScore | SDICL.h:22-34 | The maximum over all platforms: every device scores at most it, and it is 0 (the initial maxClock) or the score of some device. |
| DeviceSelection.FirstBestIsUnique | SDICL.h:24-32 | At most one device satisfies the first-maximum description, so the strict-greater rule determines the answer. |
| DeviceSelection.ScoreIsProductBelowWrap | SDICL.h:27 | When units x clock is below 2^32, the score is exactly that product. |
| DeviceSelection.TieGoesToFirstEnumerated | SDICL.h:29-32 | With equal positive scores, the device enumerated first is the selection and the later one is not. |
| DeviceSelection.WrappedScoreLosesToWeakerDevice | SDICL.h:27-29 | The unsigned product wraps: 65536 units at 65536 MHz score 0, and a 1-unit 1 MHz device enumerated after it is selected instead. |
| ComputeContext.LoadSources | SDICL.h:67-72 | The source list has one entry per kernel file, in order, and entry k is the text of file k. |
| ComputeContext.Ocl.constructor | SDICL.h:61-73 | The device is the one the selection rule picks (None exactly when no device scores above 0), the sources are the kernel files' texts in order, and the queue is empty. |
| ShaderTextures.Blanked | SDICL.h:134 | The buffer as memset leaves it: same length, every byte 0. |
| ShaderTextures.BlankedIsIdempotent | SDICL.h:131-135 | Blanking twice gives the same buffer as blanking once. |
| ShaderTextures.ShaderTexture.constructor | SDICL.h:113-121 | Requires width, height > 0 and width * height * 4 within int. Afterwards rect is {0, 0, width, height}, the pixel buffer is fresh with width * height * 4 bytes all 0, the GPU buffer has the same size, no kernel is bound, and the size invariant holds. |
| ShaderTextures.ShaderTexture.Blank | SDICL.h:131-135 | Every pixel byte becomes 0. The length, rect, GPU buffer, kernel and shader name are unchanged, and so is the size invariant. |
| ShaderTextures.ShaderTexture.SetShader | SDICL.h:155-164 | The recorded shader name and the kernel's name are `name`. The argument table holds exactly slots 0-2: the pixel buffer, rect.w and rect.h, so earlier extra arguments are dropped. rect, pixels and the GPU buffer are unchanged. |
| ShaderTextures.ShaderTexture.Shade | SDICL.h:137-143 | Requires a bound kernel. Appends to the queue a blocking write of all pixels.Length bytes from offset 0, a dispatch of rect.w * rect.h work items, a finish, and a blocking read of all pixels.Length bytes. The pixel buffer becomes the kernel's effect on its old contents, at the same length, and the GPU buffer equals it. |

## Left out

- `readFile` (SDICL.h:38-43) is file I/O; it is the parameter `readFile` of the constructor and of `LoadSources`.
- Platform and device enumeration and `getInfo` are runtime calls; their results are the `platforms` input. The model does not say what the runtime reports for a platform without devices.
- Context, queue and program creation and `program->build` are runtime calls. The build-failure path that prints the build log and exits (SDICL.h:76-79) is I/O plus process termination.
- The destructors of both classes (SDICL.h:82-87, 125-129) only release foreign handles.
- `update`, `setBlendMode` and the texture creation in the constructor (SDICL.h:115, 122, 145-153) are SDL calls with no logic of their own.
- ComputeContext.Ocl.constructor: when no device scores above 0, the original goes on with a null device. Context and program creation (SDICL.h:64, 75) then hold null handles, `program->build` does not return `CL_SUCCESS`, and the process exits (SDICL.h:76-78) whatever the kernel files are. The model's constructor still returns an `Ocl` with `device == None`, a state the original never reaches, because the build step is not modelled.
- ShaderTextures.ShaderTexture.SetShader: the kernel is looked up by name in the built program, which fails in the runtime for an unknown name. The model does not know the program's kernel names, so it binds any name. The source also ignores the error codes of the three `setArg` calls (SDICL.h:161-163), which the runtime returns for a kernel with fewer than three parameters or with other argument types. The model binds all three slots regardless.
- The texture uses its OCL handle for the context when creating the GPU buffer (SDICL.h:121), for the program when looking up the kernel (SDICL.h:158), and for the queue in `shade`. The model uses it only for the queue; buffer creation and kernel lookup are runtime calls and are left out. The renderer argument is only passed to SDL.
- What a kernel computes: `Shade` takes it as the function `run` of the kernel, the work-item count and the buffer. The queue is a log of commands, with no asynchrony or device failures.
- `rect` and `shaderKernel` are public fields in the original. A caller that changes `rect.w` or `rect.h` breaks the size invariant; the model treats them as fixed. Extra kernel arguments set through `shaderKernel->setArg` (SDICL.h:160) are a direct OpenCL call; `Kernel.SetArg` is the model of such a binding.
- The comment says the pixel bytes are in BGRA order while the texture is created as ARGB8888 (SDICL.h:95, 115). Which one holds depends on the platform's byte order, so channel order is not modelled.
