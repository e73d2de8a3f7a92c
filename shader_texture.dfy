/** The shader-backed texture (class SDL_ShaderTexture in SDICL.h): a
    CPU-side pixel buffer of 4 bytes per pixel, the GPU buffer that mirrors
    it, and the kernel bound to it with its three implicit leading arguments. */
module ShaderTextures {
  import opened Wrappers
  import opened ComputeContext

  /** The largest `int`: width * height * 4 is computed in `int`. */
  const INT_MAX: int := 0x7fff_ffff

  newtype uint8 = x: int | 0 <= x < 256

  /** SDL_Rect: a display offset and the texture's width and height. */
  datatype Rect = Rect(x: int, y: int, w: int, h: int)

  /** The implicit leading kernel arguments. */
  const PIXEL_BUFFER_SLOT: nat := 0
  const WIDTH_SLOT: nat := 1
  const HEIGHT_SLOT: nat := 2

  /** The buffer as memset leaves it: as long as before, every byte 0. */
  function Blanked(s: seq<uint8>): (r: seq<uint8>)
    ensures |r| == |s|
    ensures forall k | 0 <= k < |r| :: r[k] == 0
  {
    seq(|s|, _ => 0)
  }

  /** Blanking twice is blanking once. */
  lemma BlankedIsIdempotent(s: seq<uint8>)
    ensures Blanked(Blanked(s)) == Blanked(s)
  {
  }

  class ShaderTexture {
    var rect: Rect
    var pixels: array<uint8>
    /** Contents of the GPU-side pixel buffer. */
    var deviceBuffer: seq<uint8>
    /** The bound kernel; None is the null kernel pointer. */
    var kernel: Option<Kernel>
    /** Name of the bound shader function. */
    var shader: string
    const ocl: Ocl

    /** The size invariant: 4 bytes per pixel, on both sides. */
    ghost predicate Valid()
      reads this
    {
      && 0 < rect.w && 0 < rect.h
      && rect.w * rect.h * 4 <= INT_MAX
      && pixels.Length == rect.w * rect.h * 4
      && |deviceBuffer| == pixels.Length
    }

    /** The GPU buffer's initial contents are unspecified; only its size is. */
    constructor (ocl: Ocl, width: int, height: int)
      requires 0 < width && 0 < height && width * height * 4 <= INT_MAX
      ensures Valid() && fresh(pixels)
      ensures rect == Rect(0, 0, width, height)
      ensures pixels.Length == width * height * 4
      ensures forall k | 0 <= k < pixels.Length :: pixels[k] == 0
      ensures |deviceBuffer| == pixels.Length
      ensures kernel == None && shader == ""
      ensures this.ocl == ocl
    {
      rect := Rect(0, 0, width, height);
      pixels := new uint8[width * height * 4](_ => 0);
      deviceBuffer := seq(width * height * 4, _ => 0);
      kernel := None;
      shader := "";
      this.ocl := ocl;
    }

    /** Zero every byte of the CPU buffer, touching nothing else. */
    method Blank()
      requires Valid()
      modifies pixels
      ensures Valid()
      ensures pixels[..] == Blanked(old(pixels[..]))
      ensures unchanged(this)
    {
      forall k | 0 <= k < pixels.Length {
        pixels[k] := 0;
      }
    }

    /** Bind the kernel named `name`, discarding the previous one and its
        arguments, with the pixel buffer, width and height in slots 0-2. */
    method SetShader(name: string)
      requires Valid()
      modifies this`shader, this`kernel
      ensures Valid()
      ensures shader == name
      ensures kernel.Some? && kernel.value.name == name
      ensures kernel.value.args.Keys == {PIXEL_BUFFER_SLOT, WIDTH_SLOT, HEIGHT_SLOT}
      ensures kernel.value.args[PIXEL_BUFFER_SLOT] == PixelBufferArg
      ensures kernel.value.args[WIDTH_SLOT] == IntArg(rect.w)
      ensures kernel.value.args[HEIGHT_SLOT] == IntArg(rect.h)
      ensures rect == old(rect) && deviceBuffer == old(deviceBuffer)
      ensures pixels == old(pixels) && pixels[..] == old(pixels[..])
    {
      shader := name;
      var k := Kernel(name, map[]);
      k := k.SetArg(PIXEL_BUFFER_SLOT, PixelBufferArg);
      k := k.SetArg(WIDTH_SLOT, IntArg(rect.w));
      k := k.SetArg(HEIGHT_SLOT, IntArg(rect.h));
      kernel := Some(k);
    }

    /** One synchronous round trip: write the whole CPU buffer to the GPU,
        run the kernel over width * height work items, wait, and read the
        whole GPU buffer back. `run` is the kernel's effect on the buffer;
        a kernel cannot resize the buffer it is given. */
    method Shade(run: (Kernel, nat, seq<uint8>) -> seq<uint8>)
      requires Valid() && kernel.Some?
      requires |run(kernel.value, rect.w * rect.h, pixels[..])| == pixels.Length
      modifies this`deviceBuffer, pixels, ocl`queue
      ensures Valid()
      ensures pixels[..] == run(kernel.value, rect.w * rect.h, old(pixels[..]))
      ensures deviceBuffer == pixels[..]
      ensures ocl.queue == old(ocl.queue) + [
        WriteBuffer(true, 0, pixels.Length),
        NDRangeKernel(kernel.value, rect.w * rect.h),
        Finish,
        ReadBuffer(true, 0, pixels.Length)]
    {
      var size := pixels.Length;
      ocl.queue := ocl.queue + [WriteBuffer(true, 0, size)];
      deviceBuffer := pixels[..];
      var globalSize := rect.w * rect.h;
      ocl.queue := ocl.queue + [NDRangeKernel(kernel.value, globalSize)];
      deviceBuffer := run(kernel.value, globalSize, deviceBuffer);
      ocl.queue := ocl.queue + [Finish];
      ocl.queue := ocl.queue + [ReadBuffer(true, 0, size)];
      forall k | 0 <= k < size {
        pixels[k] := deviceBuffer[k];
      }
    }
  }
}
