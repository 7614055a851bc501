/**
 * The S16 mix kernels: the scalar reference (`audio_mix_kernel.go`) and the vector
 * form (`audio_mix_kernel_simd.go`). Vector lanes are integers with int32
 * wrap-around; masks and shifts are written as the arithmetic they perform.
 * Positions count samples of two bytes; a vector has q lanes of two samples.
 */
module MixKernel {
  import opened Basics
  import opened Arith

  // ---------------------------------------------------------------------
  // Samples
  // ---------------------------------------------------------------------

  /** Two bytes, low byte first. */
  function Unsigned16(low: int, high: int): int {
    low + 256 * high
  }

  function Signed16(u: int): int {
    if u < 32768 then u else u - 65536
  }

  /** int32 arithmetic wraps. */
  function Wrap32(x: int): (r: int)
    ensures -0x8000_0000 <= r < 0x8000_0000
  {
    (x + 0x8000_0000) % 0x1_0000_0000 - 0x8000_0000
  }

  function Clamp(x: int): (r: int)
    ensures -32768 <= r <= 32767
  {
    if x > 32767 then 32767 else if x < -32768 then -32768 else x
  }

  /** The j-th little-endian S16 sample. */
  function Sample(bytes: seq<Byte>, j: nat): (r: int)
    requires 2 * j + 2 <= |bytes|
    ensures -32768 <= r <= 32767
  {
    Signed16(Unsigned16(bytes[2*j], bytes[2*j+1]))
  }

  function LowByte(x: int): Byte {
    x % 256
  }

  function HighByte(x: int): Byte {
    x / 256 % 256
  }

  // ---------------------------------------------------------------------
  // What a mix is
  // ---------------------------------------------------------------------

  /** Every arm has m samples. */
  ghost predicate Wide(inputs: seq<seq<Byte>>, m: nat) {
    forall i :: 0 <= i < |inputs| ==> 2 * m <= |inputs[i]|
  }

  /** The running int32 sum of the first k arms at sample j. */
  ghost function SumTo(inputs: seq<seq<Byte>>, j: nat, k: nat): (r: int)
    requires k <= |inputs| && Wide(inputs, j + 1)
    ensures -0x8000_0000 <= r < 0x8000_0000
  {
    if k == 0 then 0 else Wrap32(SumTo(inputs, j, k - 1) + Sample(inputs[k-1], j))
  }

  ghost function MixAt(inputs: seq<seq<Byte>>, j: nat): int
    requires Wide(inputs, j + 1)
  {
    Clamp(SumTo(inputs, j, |inputs|))
  }

  /** The bytes of the first m samples of the mix. */
  ghost function Mixed(inputs: seq<seq<Byte>>, m: nat): (r: seq<Byte>)
    requires Wide(inputs, m)
    ensures |r| == 2 * m
  {
    if m == 0 then [] else
      Mixed(inputs, m - 1) + [LowByte(MixAt(inputs, m - 1)), HighByte(MixAt(inputs, m - 1))]
  }

  lemma {:induction false} MixedAt(inputs: seq<seq<Byte>>, m: nat, j: nat)
    requires Wide(inputs, m) && j < m
    ensures Mixed(inputs, m)[2*j] == LowByte(MixAt(inputs, j)) && Mixed(inputs, m)[2*j+1] == HighByte(MixAt(inputs, j))
  {
    if j < m - 1 {
      MixedAt(inputs, m - 1, j);
    }
  }

  lemma MixedPair(inputs: seq<seq<Byte>>, m: nat, j: nat)
    requires Wide(inputs, m) && j + 2 <= m
    ensures Mixed(inputs, m)[2*j..2*j+4] == PairBytes(MixAt(inputs, j), MixAt(inputs, j + 1))
  {
    MixedAt(inputs, m, j);
    MixedAt(inputs, m, j + 1);
  }

  /** The bytes of two samples. */
  function PairBytes(x: int, y: int): seq<Byte> {
    [LowByte(x), HighByte(x), LowByte(y), HighByte(y)]
  }

  /** Only the bytes of a range of samples have been written, and they are what they should be. */
  ghost predicate Wrote(was: seq<Byte>, now: seq<Byte>, out: seq<Byte>, from: nat, to: nat) {
    && 2 * to <= |out| <= |now| == |was|
    && (forall b :: 2 * from <= b < 2 * to ==> now[b] == out[b])
    && (forall b :: 0 <= b < |now| && !(2 * from <= b < 2 * to) ==> now[b] == was[b])
  }

  lemma WroteMore(was: seq<Byte>, now: seq<Byte>, later: seq<Byte>, out: seq<Byte>, from: nat, mid: nat, to: nat)
    requires from <= mid <= to
    requires Wrote(was, now, out, from, mid) && Wrote(now, later, out, mid, to)
    ensures Wrote(was, later, out, from, to)
  {
  }

  /** The sum without wrap-around. */
  ghost function TrueSum(inputs: seq<seq<Byte>>, j: nat, k: nat): int
    requires k <= |inputs| && Wide(inputs, j + 1)
  {
    if k == 0 then 0 else TrueSum(inputs, j, k - 1) + Sample(inputs[k-1], j)
  }

  lemma {:induction false} SumIsBounded(inputs: seq<seq<Byte>>, j: nat, k: nat)
    requires k <= |inputs| && Wide(inputs, j + 1)
    ensures -32768 * k <= TrueSum(inputs, j, k) <= 32767 * k
  {
    if k > 0 {
      SumIsBounded(inputs, j, k - 1);
    }
  }

  lemma WrapFits(x: int)
    requires -0x8000_0000 <= x < 0x8000_0000
    ensures Wrap32(x) == x
  {
  }

  /** Up to 65536 arms nothing wraps: the mix is the true sum, clamped once. */
  lemma {:induction false} SumIsExact(inputs: seq<seq<Byte>>, j: nat, k: nat)
    requires k <= |inputs| && Wide(inputs, j + 1) && k <= 65536
    ensures SumTo(inputs, j, k) == TrueSum(inputs, j, k)
  {
    if k > 0 {
      SumIsExact(inputs, j, k - 1);
      SumIsBounded(inputs, j, k);
      WrapFits(TrueSum(inputs, j, k));
    }
  }

  /** 65537 arms at full negative scale, then silence, for any larger number of arms. */
  ghost predicate LoudThenSilent(inputs: seq<seq<Byte>>) {
    |inputs| >= 65537 && forall i :: 0 <= i < |inputs| ==> inputs[i] == if i < 65537 then [0, 128] else [0, 0]
  }

  lemma {:induction false} LoudSum(inputs: seq<seq<Byte>>, k: nat)
    requires LoudThenSilent(inputs) && k <= |inputs|
    ensures TrueSum(inputs, 0, k) == -32768 * if k < 65537 then k else 65537
  {
    if k > 0 {
      LoudSum(inputs, k - 1);
    }
  }

  lemma {:induction false} LoudWraps(inputs: seq<seq<Byte>>, k: nat)
    requires LoudThenSilent(inputs) && 65537 <= k <= |inputs|
    ensures SumTo(inputs, 0, k) == 0x8000_0000 - 32768
  {
    if k == 65537 {
      LoudSum(inputs, 65536);
      SumIsExact(inputs, 0, 65536);
    } else {
      LoudWraps(inputs, k - 1);
      WrapFits(0x8000_0000 - 32768);
    }
  }

  /** On such arms the sum wraps, and the mix is the loudest positive sample. */
  lemma TooManyArmsWrap(inputs: seq<seq<Byte>>)
    requires LoudThenSilent(inputs)
    ensures MixAt(inputs, 0) == 32767 && Clamp(TrueSum(inputs, 0, |inputs|)) == -32768
  {
    LoudWraps(inputs, |inputs|);
    LoudSum(inputs, |inputs|);
  }

  /** Every mix of n arms is the clamped true sum. */
  ghost predicate AlwaysExact(n: nat) {
    forall inputs: seq<seq<Byte>>, j: nat :: |inputs| == n && Wide(inputs, j + 1) ==> MixAt(inputs, j) == Clamp(TrueSum(inputs, j, n))
  }

  /** The mix of n arms is exact, whatever they carry, if and only if there are at most 65536 of them. */
  lemma ExactIffFewArms(n: nat)
    ensures AlwaysExact(n) <==> n <= 65536
  {
    if n <= 65536 {
      forall inputs: seq<seq<Byte>>, j: nat | |inputs| == n && Wide(inputs, j + 1)
        ensures MixAt(inputs, j) == Clamp(TrueSum(inputs, j, n))
      {
        SumIsExact(inputs, j, n);
      }
    } else {
      var inputs: seq<seq<Byte>> := seq(n, i => if i < 65537 then [0, 128] else [0, 0]);
      TooManyArmsWrap(inputs);
      assert Wide(inputs, 0 + 1);
    }
  }

  // ---------------------------------------------------------------------
  // The same in plain arithmetic on bytes
  // ---------------------------------------------------------------------

  /** The value of two bytes: the low one first, the high one signed. */
  function PlainValue(low: Byte, high: Byte): int {
    low + 256 * (if high < 128 then high else high - 256)
  }

  ghost function PlainSum(inputs: seq<seq<Byte>>, j: nat, k: nat): int
    requires k <= |inputs| && Wide(inputs, j + 1)
  {
    if k == 0 then 0 else PlainSum(inputs, j, k - 1) + PlainValue(inputs[k-1][2*j], inputs[k-1][2*j+1])
  }

  lemma {:induction false} PlainSumIs(inputs: seq<seq<Byte>>, j: nat, k: nat)
    requires k <= |inputs| && Wide(inputs, j + 1)
    ensures TrueSum(inputs, j, k) == PlainSum(inputs, j, k)
  {
    if k > 0 {
      PlainSumIs(inputs, j, k - 1);
    }
  }

  lemma PlainBytes(x: int)
    requires -32768 <= x <= 32767
    ensures PlainValue(LowByte(x), HighByte(x)) == x
  {
  }

  /** Of up to 65536 arms, each two bytes of the mix hold the sum of theirs, or the limit it passes. */
  lemma MixMeans(inputs: seq<seq<Byte>>, m: nat, j: nat)
    requires Wide(inputs, m) && j < m && |inputs| <= 65536
    ensures var x, sum := PlainValue(Mixed(inputs, m)[2*j], Mixed(inputs, m)[2*j+1]), PlainSum(inputs, j, |inputs|);
      x == if sum > 32767 then 32767 else if sum < -32768 then -32768 else sum
  {
    MixedAt(inputs, m, j);
    SumIsExact(inputs, j, |inputs|);
    PlainSumIs(inputs, j, |inputs|);
    PlainBytes(MixAt(inputs, j));
  }

  // ---------------------------------------------------------------------
  // The scalar kernel
  // ---------------------------------------------------------------------

  method SumSample(inputs: seq<seq<Byte>>, j: nat) returns (sum: int)
    requires Wide(inputs, j + 1)
    ensures sum == SumTo(inputs, j, |inputs|)
  {
    sum := 0;
    for i := 0 to |inputs|
      invariant sum == SumTo(inputs, j, i)
    {
      sum := Wrap32(sum + Sample(inputs[i], j));
    }
  }

  /** One sample of the mix: summed, clamped, and split into bytes. */
  method MixSample(inputs: seq<seq<Byte>>, m: nat, j: nat) returns (low: Byte, high: Byte)
    requires Wide(inputs, m) && j < m
    ensures low == Mixed(inputs, m)[2*j] && high == Mixed(inputs, m)[2*j+1]
  {
    MixedAt(inputs, m, j);
    var sum := SumSample(inputs, j);
    if sum > 32767 {
      sum := 32767;
    } else if sum < -32768 {
      sum := -32768;
    }
    low, high := LowByte(sum), HighByte(sum);
  }

  /** `mixS16ScalarRange`. */
  method ScalarRange(dst: array<Byte>, inputs: seq<seq<Byte>>, from: nat, m: nat)
    requires from <= m && 2 * m <= dst.Length && Wide(inputs, m)
    modifies dst
    ensures Wrote(old(dst[..]), dst[..], Mixed(inputs, m), from, m)
  {
    for j := from to m
      invariant Wrote(old(dst[..]), dst[..], Mixed(inputs, m), from, j)
    {
      var low, high := MixSample(inputs, m, j);
      dst[2*j] := low;
      dst[2*j+1] := high;
    }
  }

  // ---------------------------------------------------------------------
  // Vector lanes
  // ---------------------------------------------------------------------

  /** An int32 lane from its two halves. */
  function Lane32(low: int, high: int): int {
    Wrap32(low + 65536 * high)
  }

  /** x & 0xffff on a lane. */
  function And16(x: int): (r: int)
    ensures 0 <= r < 65536
  {
    x % 65536
  }

  /** x ^ 0x8000 on a 16-bit value. */
  function XorSign(x: int): int {
    if x < 32768 then x + 32768 else x - 32768
  }

  /** The low sample of a lane, sign-extended. */
  function LowSample(v: int): int {
    Wrap32(XorSign(And16(v)) - 32768)
  }

  /** The high sample of a lane: an arithmetic shift right. */
  function HighSample(v: int): int {
    v / 65536
  }

  lemma LaneHalves(low: int, high: int)
    requires 0 <= low < 65536 && 0 <= high < 65536
    ensures LowSample(Lane32(low, high)) == Signed16(low) && HighSample(Lane32(low, high)) == Signed16(high)
  {
    var v := Lane32(low, high);
    assert v == 65536 * Signed16(high) + low;
  }

  /** The samples of a lane made of two unsigned halves. */
  method SplitLane(low16: int, high16: int) returns (low: int, high: int)
    requires 0 <= low16 < 65536 && 0 <= high16 < 65536
    ensures low == Signed16(low16) && high == Signed16(high16)
  {
    var v := Lane32(low16, high16);
    LaneHalves(low16, high16);
    low, high := LowSample(v), HighSample(v);
  }

  /** The two samples of the lane at sample j. */
  method Split(bytes: seq<Byte>, j: nat) returns (low: int, high: int)
    requires 2 * j + 4 <= |bytes|
    ensures low == Sample(bytes, j) && high == Sample(bytes, j + 1)
  {
    low, high := SplitLane(Unsigned16(bytes[2*j], bytes[2*j+1]), Unsigned16(bytes[2*j+2], bytes[2*j+3]));
  }

  /** Two clamped samples repacked into one lane, low half or high half. */
  function Repack(lo: int, hi: int): int {
    Wrap32(Clamp(hi) * 65536) + And16(Clamp(lo))
  }

  /** Byte b of a lane. */
  function LaneByte(v: int, b: nat): Byte
    requires b < 4
  {
    var u := v % 0x1_0000_0000;
    if b == 0 then u % 256 else if b == 1 then u / 256 % 256 else if b == 2 then u / 65536 % 256 else u / 16777216 % 256
  }

  /** A sample and its unsigned form have the same bytes. */
  lemma SameBytes(x: int)
    requires -32768 <= x <= 32767
    ensures 0 <= And16(x) < 65536 && LowByte(x) == And16(x) % 256 && HighByte(x) == And16(x) / 256
  {
    assert And16(x) == if x >= 0 then x else x + 65536;
  }

  lemma HalvesBytes(low: int, high: int)
    requires 0 <= low < 65536 && 0 <= high < 65536
    ensures var u := high * 65536 + low;
      u % 256 == low % 256 && u / 256 % 256 == low / 256 && u / 65536 % 256 == high % 256 && u / 16777216 % 256 == high / 256
  {
    var u := high * 65536 + low;
    DivUnique(u, 256, high * 256 + low / 256, low % 256);
    DivUnique(high * 256 + low / 256, 256, high, low / 256);
    DivUnique(u, 65536, high, low);
    DivUnique(u, 16777216, high / 256, high % 256 * 65536 + low);
  }

  lemma RepackBytes(lo: int, hi: int)
    ensures LaneByte(Repack(lo, hi), 0) == LowByte(Clamp(lo)) && LaneByte(Repack(lo, hi), 1) == HighByte(Clamp(lo))
    ensures LaneByte(Repack(lo, hi), 2) == LowByte(Clamp(hi)) && LaneByte(Repack(lo, hi), 3) == HighByte(Clamp(hi))
  {
    var l, h := And16(Clamp(lo)), And16(Clamp(hi));
    assert h == if Clamp(hi) >= 0 then Clamp(hi) else Clamp(hi) + 65536;
    assert Repack(lo, hi) % 0x1_0000_0000 == h * 65536 + l;
    SameBytes(Clamp(lo));
    SameBytes(Clamp(hi));
    HalvesBytes(l, h);
  }

  method RepackLane(lo: int, hi: int) returns (bytes: seq<Byte>)
    ensures bytes == PairBytes(Clamp(lo), Clamp(hi))
  {
    var v := Repack(lo, hi);
    RepackBytes(lo, hi);
    bytes := [LaneByte(v, 0), LaneByte(v, 1), LaneByte(v, 2), LaneByte(v, 3)];
  }

  // ---------------------------------------------------------------------
  // Vector operations
  // ---------------------------------------------------------------------

  /** The sums of the lane at sample j, low and high, over the first k arms. */
  ghost predicate LaneSums(inputs: seq<seq<Byte>>, j: nat, k: nat, lo: int, hi: int)
    requires k <= |inputs| && Wide(inputs, j + 2)
  {
    lo == SumTo(inputs, j, k) && hi == SumTo(inputs, j + 1, k)
  }

  /** The lane sums of the vector of q lanes at sample j over the first k arms. */
  ghost predicate VectorSums(inputs: seq<seq<Byte>>, j: nat, q: nat, k: nat, lo: seq<int>, hi: seq<int>)
    requires Wide(inputs, j + 2 * q) && k <= |inputs|
  {
    |lo| == |hi| == q && forall l :: 0 <= l < q ==> LaneSums(inputs, j + 2 * l, k, lo[l], hi[l])
  }

  method WidenLane(inputs: seq<seq<Byte>>, j: nat, k: nat, lo: int, hi: int) returns (lo': int, hi': int)
    requires k < |inputs| && Wide(inputs, j + 2) && LaneSums(inputs, j, k, lo, hi)
    ensures LaneSums(inputs, j, k + 1, lo', hi')
  {
    var low, high := Split(inputs[k], j);
    lo', hi' := Wrap32(lo + low), Wrap32(hi + high);
  }

  /** `mixS16Widen`: one arm's vector added into the lane sums is the sums over one more arm. */
  method Widen(inputs: seq<seq<Byte>>, j: nat, q: nat, k: nat, lo: seq<int>, hi: seq<int>) returns (lo': seq<int>, hi': seq<int>)
    requires Wide(inputs, j + 2 * q) && k < |inputs| && VectorSums(inputs, j, q, k, lo, hi)
    ensures VectorSums(inputs, j, q, k + 1, lo', hi')
  {
    lo', hi' := [], [];
    for l := 0 to q
      invariant |lo'| == |hi'| == l
      invariant forall i :: 0 <= i < l ==> LaneSums(inputs, j + 2 * i, k + 1, lo'[i], hi'[i])
    {
      var x, y := WidenLane(inputs, j + 2 * l, k, lo[l], hi[l]);
      lo', hi' := lo' + [x], hi' + [y];
    }
  }

  /** A lane's complete sums, clamped and repacked, are four bytes of the mix. */
  method NarrowLane(inputs: seq<seq<Byte>>, m: nat, j: nat, lo: int, hi: int) returns (bytes: seq<Byte>)
    requires Wide(inputs, m) && j + 2 <= m && LaneSums(inputs, j, |inputs|, lo, hi)
    ensures bytes == Mixed(inputs, m)[2*j..2*j+4]
  {
    bytes := RepackLane(lo, hi);
    MixedPair(inputs, m, j);
  }

  /** The bytes of one or more samples stored. */
  method Store(dst: array<Byte>, j: nat, c: nat, bytes: seq<Byte>, ghost out: seq<Byte>)
    requires |bytes| == 2 * c && 2 * (j + c) <= |out| <= dst.Length && bytes == out[2*j..2*(j+c)]
    modifies dst
    ensures Wrote(old(dst[..]), dst[..], out, j, j + c)
  {
    for b := 0 to |bytes|
      invariant forall x :: 2 * j <= x < 2 * j + b ==> dst[x] == out[x]
      invariant forall x :: 0 <= x < dst.Length && !(2 * j <= x < 2 * j + b) ==> dst[x] == old(dst[x])
    {
      dst[2*j+b] := bytes[b];
    }
  }

  /** `mixS16Narrow`: the vector stored over its bytes of dst. */
  method Narrow(dst: array<Byte>, inputs: seq<seq<Byte>>, m: nat, j: nat, q: nat, lo: seq<int>, hi: seq<int>)
    requires Wide(inputs, m) && j + 2 * q <= m && 2 * m <= dst.Length && VectorSums(inputs, j, q, |inputs|, lo, hi)
    modifies dst
    ensures Wrote(old(dst[..]), dst[..], Mixed(inputs, m), j, j + 2 * q)
  {
    for l := 0 to q
      invariant Wrote(old(dst[..]), dst[..], Mixed(inputs, m), j, j + 2 * l)
    {
      ghost var now := dst[..];
      var bytes := NarrowLane(inputs, m, j + 2 * l, lo[l], hi[l]);
      Store(dst, j + 2 * l, 2, bytes, Mixed(inputs, m));
      WroteMore(old(dst[..]), now, dst[..], Mixed(inputs, m), j, j + 2 * l, j + 2 * l + 2);
    }
  }

  /** The sums a vector starts from. */
  method ZeroSums(inputs: seq<seq<Byte>>, j: nat, q: nat) returns (zero: seq<int>)
    requires Wide(inputs, j + 2 * q)
    ensures VectorSums(inputs, j, q, 0, zero, zero)
  {
    zero := seq(q, l => 0);
  }

  /** One vector: every arm widened in turn, then narrowed. */
  method MixVector(dst: array<Byte>, inputs: seq<seq<Byte>>, m: nat, j: nat, q: nat)
    requires Wide(inputs, m) && j + 2 * q <= m && 2 * m <= dst.Length
    modifies dst
    ensures Wrote(old(dst[..]), dst[..], Mixed(inputs, m), j, j + 2 * q)
  {
    var lo := ZeroSums(inputs, j, q);
    var hi := lo;
    for k := 0 to |inputs|
      invariant VectorSums(inputs, j, q, k, lo, hi)
      invariant dst[..] == old(dst[..])
    {
      lo, hi := Widen(inputs, j, q, k, lo, hi);
    }
    Narrow(dst, inputs, m, j, q, lo, hi);
  }

  /** Four vectors side by side, every arm widened into all four before any is narrowed. */
  method MixBlock(dst: array<Byte>, inputs: seq<seq<Byte>>, m: nat, j: nat, q: nat)
    requires Wide(inputs, m) && j + 8 * q <= m && 2 * m <= dst.Length
    modifies dst
    ensures Wrote(old(dst[..]), dst[..], Mixed(inputs, m), j, j + 8 * q)
  {
    var j1, j2, j3 := j + 2 * q, j + 4 * q, j + 6 * q;
    var lo0 := ZeroSums(inputs, j, q);
    var lo1 := ZeroSums(inputs, j1, q);
    var lo2 := ZeroSums(inputs, j2, q);
    var lo3 := ZeroSums(inputs, j3, q);
    var hi0, hi1, hi2, hi3 := lo0, lo1, lo2, lo3;
    for k := 0 to |inputs|
      invariant VectorSums(inputs, j, q, k, lo0, hi0) && VectorSums(inputs, j1, q, k, lo1, hi1)
      invariant VectorSums(inputs, j2, q, k, lo2, hi2) && VectorSums(inputs, j3, q, k, lo3, hi3)
      invariant dst[..] == old(dst[..])
    {
      lo0, hi0 := Widen(inputs, j, q, k, lo0, hi0);
      lo1, hi1 := Widen(inputs, j1, q, k, lo1, hi1);
      lo2, hi2 := Widen(inputs, j2, q, k, lo2, hi2);
      lo3, hi3 := Widen(inputs, j3, q, k, lo3, hi3);
    }
    Narrow(dst, inputs, m, j, q, lo0, hi0);
    Narrow(dst, inputs, m, j1, q, lo1, hi1);
    Narrow(dst, inputs, m, j2, q, lo2, hi2);
    Narrow(dst, inputs, m, j3, q, lo3, hi3);
  }

  /** A saturating int16 add of two samples, as bytes. */
  method AddSaturated(inputs: seq<seq<Byte>>, m: nat, j: nat) returns (bytes: seq<Byte>)
    requires |inputs| == 2 && Wide(inputs, m) && j < m
    ensures bytes == Mixed(inputs, m)[2*j..2*j+2]
  {
    var sum := Clamp(Sample(inputs[0], j) + Sample(inputs[1], j));
    SumIsExact(inputs, j, 2);
    assert TrueSum(inputs, j, 1) == Sample(inputs[0], j);
    MixedAt(inputs, m, j);
    bytes := [LowByte(sum), HighByte(sum)];
  }

  /** `mixS16Add2`: one vector of saturating adds. */
  method AddVector(dst: array<Byte>, inputs: seq<seq<Byte>>, m: nat, j: nat, q: nat)
    requires |inputs| == 2 && Wide(inputs, m) && j + 2 * q <= m && 2 * m <= dst.Length
    modifies dst
    ensures Wrote(old(dst[..]), dst[..], Mixed(inputs, m), j, j + 2 * q)
  {
    for i := j to j + 2 * q
      invariant Wrote(old(dst[..]), dst[..], Mixed(inputs, m), j, i)
    {
      ghost var now := dst[..];
      var bytes := AddSaturated(inputs, m, i);
      Store(dst, i, 1, bytes, Mixed(inputs, m));
      WroteMore(old(dst[..]), now, dst[..], Mixed(inputs, m), j, i, i + 1);
    }
  }

  method AddBlock(dst: array<Byte>, inputs: seq<seq<Byte>>, m: nat, j: nat, q: nat)
    requires |inputs| == 2 && Wide(inputs, m) && j + 8 * q <= m && 2 * m <= dst.Length
    modifies dst
    ensures Wrote(old(dst[..]), dst[..], Mixed(inputs, m), j, j + 8 * q)
  {
    AddVector(dst, inputs, m, j, q);
    AddVector(dst, inputs, m, j + 2 * q, q);
    AddVector(dst, inputs, m, j + 4 * q, q);
    AddVector(dst, inputs, m, j + 6 * q, q);
  }

  // ---------------------------------------------------------------------
  // The vector kernel
  // ---------------------------------------------------------------------

  lemma OneSampleBytes(low: Byte, high: Byte)
    ensures LowByte(Signed16(Unsigned16(low, high))) == low && HighByte(Signed16(Unsigned16(low, high))) == high
  {
    var u := Unsigned16(low, high);
    assert And16(Signed16(u)) == u;
    SameBytes(Signed16(u));
    assert u % 256 == low && u / 256 == high;
  }

  lemma OneArmSample(arm: seq<Byte>, m: nat, j: nat)
    requires 2 * m <= |arm| && j < m
    ensures Wide([arm], m) && Mixed([arm], m)[2*j] == arm[2*j] && Mixed([arm], m)[2*j+1] == arm[2*j+1]
  {
    MixedAt([arm], m, j);
    SumIsExact([arm], j, 1);
    assert TrueSum([arm], j, 1) == TrueSum([arm], j, 0) + Sample(arm, j);
    OneSampleBytes(arm[2*j], arm[2*j+1]);
  }

  /** One arm mixes to itself. */
  lemma OneArmIsACopy(arm: seq<Byte>, m: nat)
    requires 2 * m <= |arm|
    ensures Wide([arm], m) && Mixed([arm], m) == arm[..2*m]
  {
    forall b | 0 <= b < 2 * m
      ensures Mixed([arm], m)[b] == arm[b]
    {
      OneArmSample(arm, m, b / 2);
    }
  }

  lemma MultipleOf(d: nat, p: int)
    requires d > 0 && d * p >= 0
    ensures d * p % d == 0
  {
    DivUnique(d * p, d, p, 0);
  }

  /** Rounding down to whole steps. */
  lemma WholeSteps(n: nat, d: nat)
    requires d > 0
    ensures n % d <= n && (n - n % d) % d == 0
  {
    assert n - n % d == d * (n / d);
    MultipleOf(d, n / d);
  }

  /** Steps counted in bytes and in samples round the same. */
  lemma HalveSteps(m: nat, d: nat)
    requires d > 0
    ensures 2 * m % (2 * d) == 2 * (m % d)
  {
    assert m == d * (m / d) + m % d;
    MulAssoc(2, d, m / d);
    DivUnique(2 * m, 2 * d, m / d, 2 * (m % d));
  }

  /** Vectors left after the blocks are whole. */
  lemma StepsLeft(vec: nat, d: nat)
    requires d > 0 && vec % d == 0
    ensures vec % (4 * d) % d == 0
  {
    var p, b := vec / d, vec / (4 * d);
    assert vec == d * p && vec == 4 * d * b + vec % (4 * d);
    MulSwap4(d, b);
    Distrib(d, p, -(4 * b));
    assert vec % (4 * d) == d * (p + -(4 * b));
    MultipleOf(d, p + -(4 * b));
  }

  lemma MulSwap4(d: int, b: int)
    ensures 4 * d * b == d * (4 * b) && d * -(4 * b) == -(d * (4 * b))
  {
  }

  /** A positive multiple of the step leaves room for one more. */
  lemma RoomForOne(left: nat, d: nat)
    requires d > 0 && left > 0 && left % d == 0
    ensures left >= d && (left - d) % d == 0
  {
    var p := left / d;
    assert left == d * p;
    Distrib(d, p, -1);
    if left < d {
      DivUnique(left, d, 0, left);
    } else {
      MultipleOf(d, p + -1);
    }
  }

  /** The blocks of the vector kernel: four vectors at a time. */
  method MixBlocks(dst: array<Byte>, inputs: seq<seq<Byte>>, m: nat, block: nat, q: nat)
    requires Wide(inputs, m) && q > 0 && block <= m && 2 * m <= dst.Length && block % (8 * q) == 0
    modifies dst
    ensures Wrote(old(dst[..]), dst[..], Mixed(inputs, m), 0, block)
  {
    var j := 0;
    while j < block
      invariant j <= block && (block - j) % (8 * q) == 0
      invariant Wrote(old(dst[..]), dst[..], Mixed(inputs, m), 0, j)
    {
      RoomForOne(block - j, 8 * q);
      ghost var now := dst[..];
      if |inputs| == 2 {
        AddBlock(dst, inputs, m, j, q);
      } else {
        MixBlock(dst, inputs, m, j, q);
      }
      WroteMore(old(dst[..]), now, dst[..], Mixed(inputs, m), 0, j, j + 8 * q);
      j := j + 8 * q;
    }
  }

  /** The whole vectors left over after the blocks. */
  method MixVectors(dst: array<Byte>, inputs: seq<seq<Byte>>, m: nat, from: nat, vec: nat, q: nat)
    requires Wide(inputs, m) && q > 0 && from <= vec <= m && 2 * m <= dst.Length && (vec - from) % (2 * q) == 0
    modifies dst
    ensures Wrote(old(dst[..]), dst[..], Mixed(inputs, m), from, vec)
  {
    var j := from;
    while j < vec
      invariant from <= j <= vec && (vec - j) % (2 * q) == 0
      invariant Wrote(old(dst[..]), dst[..], Mixed(inputs, m), from, j)
    {
      RoomForOne(vec - j, 2 * q);
      ghost var now := dst[..];
      if |inputs| == 2 {
        AddVector(dst, inputs, m, j, q);
      } else {
        MixVector(dst, inputs, m, j, q);
      }
      WroteMore(old(dst[..]), now, dst[..], Mixed(inputs, m), from, j, j + 2 * q);
      j := j + 2 * q;
    }
  }

  /** `mixS16ScalarKernel`. */
  method ScalarKernel(dst: array<Byte>, inputs: seq<seq<Byte>>, n: nat)
    requires n % 2 == 0 && n <= dst.Length && Wide(inputs, n / 2)
    modifies dst
    ensures Wrote(old(dst[..]), dst[..], Mixed(inputs, n / 2), 0, n / 2)
  {
    ScalarRange(dst, inputs, 0, n / 2);
  }

  /** The split of n bytes into blocks of four vectors, whole vectors, and a tail, in samples. */
  lemma Splits(m: nat, q: nat)
    requires q > 0
    ensures var vec := 2 * m - 2 * m % (4 * q); var block := vec - vec % (4 * (4 * q));
      && vec == 2 * (m - m % (2 * q)) && block == 2 * ((m - m % (2 * q)) - (m - m % (2 * q)) % (8 * q))
      && 0 <= block <= vec <= 2 * m && (block / 2) % (8 * q) == 0 && (vec / 2 - block / 2) % (2 * q) == 0
  {
    var v := m - m % (2 * q);
    HalveSteps(m, 2 * q);
    WholeSteps(m, 2 * q);
    HalveSteps(v, 8 * q);
    WholeSteps(v, 8 * q);
    StepsLeft(v, 2 * q);
    assert 4 * (2 * q) == 8 * q && 2 * (8 * q) == 4 * (4 * q) && 2 * (2 * q) == 4 * q;
  }

  lemma SplitsBytes(n: nat, step: nat)
    requires n % 2 == 0 && step > 0 && step % 4 == 0
    ensures var vec := n - n % step; var block := vec - vec % (4 * step); var q := step / 4;
      && q > 0 && 0 <= block / 2 <= vec / 2 <= n / 2
      && (block / 2) % (8 * q) == 0 && (vec / 2 - block / 2) % (2 * q) == 0
  {
    Splits(n / 2, step / 4);
  }

  /** Blocks of four vectors, then whole vectors, within m samples. */
  ghost predicate Aligned(m: nat, block: nat, vec: nat, q: nat) {
    q > 0 && block <= vec <= m && block % (8 * q) == 0 && (vec - block) % (2 * q) == 0
  }

  /** Where the blocks and the whole vectors of n bytes end, and how many lanes a vector has. */
  method SplitPoints(n: nat, step: nat) returns (block: nat, vec: nat, q: nat)
    requires n % 2 == 0 && step > 0 && step % 4 == 0
    ensures q == step / 4 && vec == (n - n % step) / 2 && Aligned(n / 2, block, vec, q)
  {
    SplitsBytes(n, step);
    var whole := n - n % step;
    block, vec, q := (whole - whole % (4 * step)) / 2, whole / 2, step / 4;
  }

  /** Blocks, vectors and tail, at their places in samples. */
  method MixParts(dst: array<Byte>, inputs: seq<seq<Byte>>, m: nat, block: nat, vec: nat, q: nat)
    requires Wide(inputs, m) && 2 * m <= dst.Length && Aligned(m, block, vec, q)
    modifies dst
    ensures Wrote(old(dst[..]), dst[..], Mixed(inputs, m), 0, m)
  {
    MixBlocks(dst, inputs, m, block, q);
    ghost var one := dst[..];
    MixVectors(dst, inputs, m, block, vec, q);
    ghost var two := dst[..];
    WroteMore(old(dst[..]), one, two, Mixed(inputs, m), 0, block, vec);
    ScalarRange(dst, inputs, vec, m);
    WroteMore(old(dst[..]), two, dst[..], Mixed(inputs, m), 0, vec, m);
  }

  /** `mixS16SIMDKernel`: copy, saturating add, or widen and clamp; blocks, vectors, and a scalar tail. */
  method SimdKernel(dst: array<Byte>, inputs: seq<seq<Byte>>, n: nat, step: nat)
    requires n % 2 == 0 && n <= dst.Length && Wide(inputs, n / 2) && step > 0 && step % 4 == 0
    modifies dst
    ensures Wrote(old(dst[..]), dst[..], Mixed(inputs, n / 2), 0, n / 2)
  {
    var m := n / 2;
    if |inputs| == 1 {
      OneArmIsACopy(inputs[0], m);
      assert inputs == [inputs[0]];
      Store(dst, 0, m, inputs[0][..n], Mixed(inputs, m));
    } else {
      var block, vec, q := SplitPoints(n, step);
      MixParts(dst, inputs, m, block, vec, q);
    }
  }

  /** Both kernels leave the same bytes, in the whole of dst. */
  lemma KernelsAgree(was: seq<Byte>, scalar: seq<Byte>, vector: seq<Byte>, inputs: seq<seq<Byte>>, m: nat)
    requires Wide(inputs, m)
    requires Wrote(was, scalar, Mixed(inputs, m), 0, m) && Wrote(was, vector, Mixed(inputs, m), 0, m)
    ensures scalar == vector
  {
    forall b | 0 <= b < |was|
      ensures scalar[b] == vector[b]
    {
    }
  }
}
