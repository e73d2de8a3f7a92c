/** The compute context (class OCL in SDICL.h): the selected device, the list
    of program sources read from the kernel files, and the command queue,
    recorded as the sequence of commands enqueued on it. */
module ComputeContext {
  import opened Wrappers
  import opened DeviceSelection

  /** A value bound to one kernel argument slot. */
  datatype KernelArg = PixelBufferArg | IntArg(value: int)

  /** A kernel handle: the entry point's name and its argument table. */
  datatype Kernel = Kernel(name: string, args: map<nat, KernelArg>)
  {
    /** cl::Kernel::setArg: bind (or rebind) one slot. */
    function SetArg(slot: nat, v: KernelArg): Kernel
    {
      this.(args := args[slot := v])
    }
  }

  /** One command put on the command queue. */
  datatype Command =
    | WriteBuffer(blocking: bool, offset: nat, size: nat)
    | NDRangeKernel(kernel: Kernel, globalSize: nat)
    | Finish
    | ReadBuffer(blocking: bool, offset: nat, size: nat)

  /** The loop of the OCL constructor that reads every kernel file, in order,
      and appends its whole text as one program source. */
  method LoadSources(kernelFiles: seq<string>, readFile: string -> string)
    returns (sources: seq<string>)
    ensures |sources| == |kernelFiles|
    ensures forall k | 0 <= k < |kernelFiles| :: sources[k] == readFile(kernelFiles[k])
  {
    sources := [];
    for k := 0 to |kernelFiles|
      invariant |sources| == k
      invariant forall m | 0 <= m < k :: sources[m] == readFile(kernelFiles[m])
    {
      var code := readFile(kernelFiles[k]);
      sources := sources + [code];
    }
  }

  class Ocl {
    /** None is the default-constructed device. */
    var device: Option<DeviceId>
    /** One entry per kernel file. */
    var sources: seq<string>
    /** Every command enqueued so far, oldest first. */
    var queue: seq<Command>

    /** `platforms` is what enumeration reports, each platform's devices in
        the runtime's order; `readFile` stands for reading a file's text. */
    constructor (platforms: seq<seq<DeviceInfo>>, kernelFiles: seq<string>, readFile: string -> string)
      ensures device.None? <==> NoPositiveScore(platforms)
      ensures device.Some? ==> IsFirstBest(platforms, device.value)
      ensures |sources| == |kernelFiles|
      ensures forall k | 0 <= k < |kernelFiles| :: sources[k] == readFile(kernelFiles[k])
      ensures queue == []
    {
      var chosen := GetSemiIdealDevice(platforms);
      var loaded := LoadSources(kernelFiles, readFile);
      device := chosen;
      sources := loaded;
      queue := [];
    }
  }
}
