/** The device-selection rule of the compute context (getSemiIdealDevice in
    SDICL.h): every device of every platform is scored by
    compute units x clock frequency as an `unsigned int`, and the first device
    with the strictly highest positive score wins. */
module DeviceSelection {
  import opened Wrappers

  /** 2^32: `unsigned int` arithmetic is taken modulo this. */
  const UINT_MODULUS: int := 0x1_0000_0000

  newtype uint32 = x: int | 0 <= x < 0x1_0000_0000

  /** What the runtime reports about one device: CL_DEVICE_MAX_COMPUTE_UNITS
      and CL_DEVICE_MAX_CLOCK_FREQUENCY, both `cl_uint`. */
  datatype DeviceInfo = DeviceInfo(maxComputeUnits: uint32, maxClockFrequency: uint32)

  /** A device's place in enumeration order: its platform's index, then its
      index in that platform's device list. */
  datatype DeviceId = DeviceId(platform: nat, index: nat)

  /** The true product of compute units and clock frequency, before any
      wrap-around. */
  function Product(d: DeviceInfo): nat
  {
    d.maxComputeUnits as int * d.maxClockFrequency as int
  }

  /** The heuristic score. The product is computed in `unsigned int`, so it
      wraps around: the score is the one value below 2^32 that differs from
      the true product by a multiple of 2^32. */
  function Score(d: DeviceInfo): (s: uint32)
    ensures s as int <= Product(d)
    ensures (Product(d) - s as int) % UINT_MODULUS == 0
  {
    var product := Product(d);
    var wrapped := product % UINT_MODULUS;
    assert product - wrapped == product / UINT_MODULUS * UINT_MODULUS;
    wrapped as uint32
  }

  predicate IsDevice(platforms: seq<seq<DeviceInfo>>, p: int, i: int)
  {
    0 <= p < |platforms| && 0 <= i < |platforms[p]|
  }

  /** Device (p, i) is enumerated before device (q, j): platforms in the outer
      loop, each platform's devices in the inner loop. */
  predicate Precedes(p: int, i: int, q: int, j: int)
  {
    p < q || (p == q && i < j)
  }

  /** No device scores above 0; in particular, there may be no device at all. */
  ghost predicate NoPositiveScore(platforms: seq<seq<DeviceInfo>>)
  {
    forall p, i | IsDevice(platforms, p, i) :: Score(platforms[p][i]) == 0
  }

  /** `id` names a device with a positive score that no device beats, and every
      device enumerated before it scores strictly less: the first maximum. */
  ghost predicate IsFirstBest(platforms: seq<seq<DeviceInfo>>, id: DeviceId)
  {
    && IsDevice(platforms, id.platform, id.index)
    && Score(platforms[id.platform][id.index]) > 0
    && (forall p, i | IsDevice(platforms, p, i) ::
          Score(platforms[p][i]) <= Score(platforms[id.platform][id.index]))
    && (forall p, i | IsDevice(platforms, p, i) && Precedes(p, i, id.platform, id.index) ::
          Score(platforms[p][i]) < Score(platforms[id.platform][id.index]))
  }

  /** The highest score in one platform's device list (0 when it is empty). */
  function PlatformMax(devices: seq<DeviceInfo>): (m: uint32)
    ensures forall i | 0 <= i < |devices| :: Score(devices[i]) <= m
    ensures m == 0 || exists i | 0 <= i < |devices| :: Score(devices[i]) == m
  {
    if devices == [] then 0
    else
      var rest := PlatformMax(devices[..|devices| - 1]);
      var last := Score(devices[|devices| - 1]);
      if last > rest then last else rest
  }

  /** The highest score of any device of any platform (0 when there is none). */
  function MaxScore(platforms: seq<seq<DeviceInfo>>): (m: uint32)
    ensures forall p, i | IsDevice(platforms, p, i) :: Score(platforms[p][i]) <= m
    ensures m == 0 || exists p, i | IsDevice(platforms, p, i) :: Score(platforms[p][i]) == m
  {
    if platforms == [] then 0
    else
      var earlier := platforms[..|platforms| - 1];
      var rest := MaxScore(earlier);
      var last := PlatformMax(platforms[|platforms| - 1]);
      MaxScoreStep(earlier, platforms[|platforms| - 1], rest, last);
      assert platforms == earlier + [platforms[|platforms| - 1]];
      if last > rest then last else rest
  }

  /** One step of MaxScore: the larger of the earlier platforms' maximum and
      the last platform's maximum bounds every device and is attained. */
  lemma MaxScoreStep(earlier: seq<seq<DeviceInfo>>, lastPlatform: seq<DeviceInfo>, rest: uint32, last: uint32)
    requires forall p, i | IsDevice(earlier, p, i) :: Score(earlier[p][i]) <= rest
    requires rest == 0 || exists p, i | IsDevice(earlier, p, i) :: Score(earlier[p][i]) == rest
    requires forall i | 0 <= i < |lastPlatform| :: Score(lastPlatform[i]) <= last
    requires last == 0 || exists i | 0 <= i < |lastPlatform| :: Score(lastPlatform[i]) == last
    ensures var platforms, m := earlier + [lastPlatform], if last > rest then last else rest;
      && (forall p, i | IsDevice(platforms, p, i) :: Score(platforms[p][i]) <= m)
      && (m == 0 || exists p, i | IsDevice(platforms, p, i) :: Score(platforms[p][i]) == m)
  {
    var platforms := earlier + [lastPlatform];
    var n := |earlier|;
    var m := if last > rest then last else rest;
    forall p, i | IsDevice(platforms, p, i)
      ensures Score(platforms[p][i]) <= m
    {
      if p < n {
        assert IsDevice(earlier, p, i) && earlier[p][i] == platforms[p][i];
      } else {
        assert platforms[p] == lastPlatform;
      }
    }
    if m != 0 && last > rest {
      var i :| 0 <= i < |lastPlatform| && Score(lastPlatform[i]) == last;
      assert IsDevice(platforms, n, i) && platforms[n][i] == lastPlatform[i];
    } else if m != 0 {
      var p, i :| IsDevice(earlier, p, i) && Score(earlier[p][i]) == rest;
      assert IsDevice(platforms, p, i) && platforms[p][i] == earlier[p][i];
    }
  }

  /** State of the selection loop once every device enumerated before (p, i)
      has been scored: `best`/`maxClock` hold the first maximum seen so far. */
  ghost predicate Scanned(platforms: seq<seq<DeviceInfo>>, p: int, i: int,
                          best: Option<DeviceId>, maxClock: uint32)
  {
    && (best.None? ==> maxClock == 0)
    && (best.Some? ==>
          && IsDevice(platforms, best.value.platform, best.value.index)
          && Precedes(best.value.platform, best.value.index, p, i)
          && maxClock > 0
          && Score(platforms[best.value.platform][best.value.index]) == maxClock
          && forall q, j | IsDevice(platforms, q, j) && Precedes(q, j, best.value.platform, best.value.index) ::
               Score(platforms[q][j]) < maxClock)
    && forall q, j | IsDevice(platforms, q, j) && Precedes(q, j, p, i) :: Score(platforms[q][j]) <= maxClock
  }

  /** The nested selection loop. `None` stands for the default-constructed
      device that comes back when no device scores above the initial maximum 0. */
  method GetSemiIdealDevice(platforms: seq<seq<DeviceInfo>>) returns (best: Option<DeviceId>)
    ensures best.None? <==> NoPositiveScore(platforms)
    ensures best.Some? ==> IsFirstBest(platforms, best.value)
  {
    best := None;
    var maxClock: uint32 := 0;
    for p := 0 to |platforms|
      invariant Scanned(platforms, p, 0, best, maxClock)
    {
      var devices := platforms[p];
      for i := 0 to |devices|
        invariant Scanned(platforms, p, i, best, maxClock)
      {
        var thisClock := Score(devices[i]);
        if thisClock > maxClock {
          best := Some(DeviceId(p, i));
          maxClock := thisClock;
        }
      }
    }
  }

  /** The selection rule determines its answer: at most one device is the
      first maximum. */
  lemma FirstBestIsUnique(platforms: seq<seq<DeviceInfo>>, a: DeviceId, b: DeviceId)
    requires IsFirstBest(platforms, a) && IsFirstBest(platforms, b)
    ensures a == b
  {
  }

  /** The two specifications agree: nothing scores above 0 exactly when the
      maximum score is 0, and the first maximum scores the maximum. */
  lemma FirstBestScoresMaxScore(platforms: seq<seq<DeviceInfo>>, id: DeviceId)
    ensures NoPositiveScore(platforms) <==> MaxScore(platforms) == 0
    ensures IsFirstBest(platforms, id) ==> Score(platforms[id.platform][id.index]) == MaxScore(platforms)
  {
  }

  /** Below 2^32 the score is the plain product. */
  lemma ScoreIsProductBelowWrap(d: DeviceInfo)
    requires Product(d) < UINT_MODULUS
    ensures Score(d) as int == Product(d)
  {
    var x := Product(d);
    assert x % UINT_MODULUS == x;
  }

  /** Equal positive scores: the device enumerated first is chosen, and the
      later one, on another platform, is not. */
  lemma TieGoesToFirstEnumerated(d: DeviceInfo, e: DeviceInfo)
    requires Score(d) == Score(e) > 0
    ensures IsFirstBest([[d], [e]], DeviceId(0, 0))
    ensures !IsFirstBest([[d], [e]], DeviceId(1, 0))
  {
  }

  /** The product wraps: 65536 units at 65536 MHz score 0, so such a device
      loses even to a single unit at 1 MHz enumerated after it. */
  lemma WrappedScoreLosesToWeakerDevice()
    ensures Score(DeviceInfo(65536, 65536)) == 0
    ensures IsFirstBest([[DeviceInfo(65536, 65536), DeviceInfo(1, 1)]], DeviceId(0, 1))
  {
  }
}
