/** The Q15 FIR filter. Three loops, a scalar reference, a portable two-lane
    loop and the Cortex-M4 loop over a modular 64-bit accumulator, all compute
    the same truncated and saturated convolution. */
module Fir {
  import opened Words

  const MAX_TAPS := 64
  const I16_MAX := 0x7FFF
  const I16_MIN := -0x8000
  const SHIFT := 32768

  type i16 = x: int | -0x8000 <= x <= 0x7FFF
  type i32 = x: int | -0x8000_0000 <= x <= 0x7FFF_FFFF
  type i64 = x: int | -0x8000_0000_0000_0000 <= x <= 0x7FFF_FFFF_FFFF_FFFF

  datatype Status =
    | Ok | NullPointer | InvalidTapCount | InputTooShort | OutputTooSmall | SizeOverflow | OverlappingOutput

  /** The arguments of a call; pointers are byte addresses, 0 standing for NULL,
      and counts are in 16-bit elements. */
  datatype Args = Args(samples: u32, sampleCount: u32, coefficients: u32, tapCount: u32, output: u32, capacity: u32)

  // ---- Validation ----

  function ValidOutputCount(samples: u32, taps: u32): (n: u32)
    ensures n > 0 <==> 1 <= taps <= 64 && taps <= samples
    ensures n > 0 ==> n - 1 + taps == samples
  {
    if taps == 0 || taps > MAX_TAPS || samples < taps then 0 else samples - taps + 1
  }

  /** An array of count elements at this address ends inside the address space. */
  predicate Fits(pointer: u32, count: u32) {
    pointer + 2 * count <= U32_MAX
  }

  predicate Covers(pointer: u32, count: u32, address: int) {
    pointer <= address < pointer + 2 * count
  }

  /** The two arrays share a byte. */
  ghost predicate Shares(p: u32, m: u32, q: u32, n: u32) {
    exists address :: Covers(p, m, address) && Covers(q, n, address)
  }

  method ByteRange(pointer: u32, count: u32) returns (ok: bool, begin: u32, end: u32)
    ensures ok <==> Fits(pointer, count)
    ensures ok ==> begin == pointer && end == pointer + 2 * count
  {
    begin, end := 0, 0;
    if count > U32_MAX / 2 { return false, begin, end; }
    var bytes := count * 2;
    if bytes > U32_MAX - pointer { return false, begin, end; }
    return true, pointer, pointer + bytes;
  }

  predicate RangesOverlap(firstBegin: u32, firstEnd: u32, secondBegin: u32, secondEnd: u32) {
    firstBegin < secondEnd && secondBegin < firstEnd
  }

  lemma OverlapIsSharing(p: u32, m: u32, q: u32, n: u32)
    requires Fits(p, m) && Fits(q, n) && m > 0 && n > 0
    ensures RangesOverlap(p, p + 2 * m, q, q + 2 * n) <==> Shares(p, m, q, n)
  {
    var address := if p < q then q else p;
    if RangesOverlap(p, p + 2 * m, q, q + 2 * n) {
      assert Covers(p, m, address) && Covers(q, n, address);
    }
  }

  /** What each refusal means, first failure first. */
  ghost function Verdict(a: Args): Status {
    var outputs := ValidOutputCount(a.sampleCount, a.tapCount);
    if a.samples == 0 || a.coefficients == 0 || a.output == 0 then NullPointer
    else if !(1 <= a.tapCount <= MAX_TAPS) then InvalidTapCount
    else if a.sampleCount < a.tapCount then InputTooShort
    else if a.capacity < outputs then OutputTooSmall
    else if !Fits(a.samples, a.sampleCount) || !Fits(a.coefficients, a.tapCount) || !Fits(a.output, outputs) then
      SizeOverflow
    else if Shares(a.output, outputs, a.samples, a.sampleCount)
            || Shares(a.output, outputs, a.coefficients, a.tapCount) then
      OverlappingOutput
    else Ok
  }

  /** The statuses in plain numbers, each with its exact condition: every status
      but the first also says that no earlier one applies. */
  lemma VerdictMeans(a: Args)
    ensures var v := Verdict(a);
      var outputs := a.sampleCount - a.tapCount + 1;
      var named := a.samples != 0 && a.coefficients != 0 && a.output != 0;
      var tapped := named && 1 <= a.tapCount <= 64;
      var covered := tapped && a.sampleCount >= a.tapCount;
      var roomy := covered && a.capacity >= outputs;
      var ends := roomy && a.samples + 2 * a.sampleCount <= 0xFFFF_FFFF
                  && a.coefficients + 2 * a.tapCount <= 0xFFFF_FFFF && a.output + 2 * outputs <= 0xFFFF_FFFF;
      && (v == NullPointer <==> !named)
      && (v == InvalidTapCount <==> named && !tapped)
      && (v == InputTooShort <==> tapped && !covered)
      && (v == OutputTooSmall <==> covered && !roomy)
      && (v == SizeOverflow <==> roomy && !ends)
      && (v == OverlappingOutput <==> ends && exists address ::
            a.output <= address < a.output + 2 * outputs
            && (Covers(a.samples, a.sampleCount, address) || Covers(a.coefficients, a.tapCount, address)))
      && (v == Ok <==> ends && v != OverlappingOutput)
  {
    var outputs := ValidOutputCount(a.sampleCount, a.tapCount);
    if Verdict(a) == OverlappingOutput {
      if Shares(a.output, outputs, a.samples, a.sampleCount) {
        var address :| Covers(a.output, outputs, address) && Covers(a.samples, a.sampleCount, address);
      } else {
        var address :| Covers(a.output, outputs, address) && Covers(a.coefficients, a.tapCount, address);
      }
    } else if Verdict(a) == Ok {
      forall address | a.output <= address < a.output + 2 * outputs
        ensures !Covers(a.samples, a.sampleCount, address) && !Covers(a.coefficients, a.tapCount, address)
      {
        assert Covers(a.output, outputs, address);
      }
    }
  }

  method Validate(a: Args) returns (status: Status)
    ensures status == Verdict(a)
  {
    if a.samples == 0 || a.coefficients == 0 || a.output == 0 { return NullPointer; }
    if a.tapCount == 0 || a.tapCount > MAX_TAPS { return InvalidTapCount; }
    if a.sampleCount < a.tapCount { return InputTooShort; }
    var outputs := ValidOutputCount(a.sampleCount, a.tapCount);
    if a.capacity < outputs { return OutputTooSmall; }
    var samplesOk, samplesBegin, samplesEnd := ByteRange(a.samples, a.sampleCount);
    if !samplesOk { return SizeOverflow; }
    var tapsOk, tapsBegin, tapsEnd := ByteRange(a.coefficients, a.tapCount);
    if !tapsOk { return SizeOverflow; }
    var outputOk, outputBegin, outputEnd := ByteRange(a.output, outputs);
    if !outputOk { return SizeOverflow; }
    OverlapIsSharing(a.output, outputs, a.samples, a.sampleCount);
    OverlapIsSharing(a.output, outputs, a.coefficients, a.tapCount);
    if RangesOverlap(outputBegin, outputEnd, samplesBegin, samplesEnd)
       || RangesOverlap(outputBegin, outputEnd, tapsBegin, tapsEnd) {
      return OverlappingOutput;
    }
    return Ok;
  }

  // ---- The filter ----

  function Product(a: i16, b: i16): int {
    a as int * b as int
  }

  /** The sum of products over the first n taps of the window at i. */
  function Dot(x: seq<i16>, h: seq<i16>, i: nat, n: nat): int
    requires i + n <= |x| && n <= |h|
  {
    if n == 0 then 0 else Dot(x, h, i, n - 1) + Product(x[i + n - 1], h[n - 1])
  }

  /** Division that truncates toward zero, as the language of the source
      divides signed integers. */
  function TruncDiv(a: int, b: int): int
    requires b > 0
  {
    if a >= 0 then a / b else -((-a) / b)
  }

  function Saturate(x: int): i16 {
    if x > I16_MAX then I16_MAX else if x < I16_MIN then I16_MIN else x
  }

  function Output(x: seq<i16>, h: seq<i16>, i: nat): i16
    requires i + |h| <= |x|
  {
    Saturate(TruncDiv(Dot(x, h, i, |h|), SHIFT))
  }

  /** The first n outputs. */
  function Filtered(x: seq<i16>, h: seq<i16>, n: nat): (r: seq<i16>)
    requires n > 0 ==> n - 1 + |h| <= |x|
    ensures |r| == n
    ensures forall i :: 0 <= i < n ==> r[i] == Output(x, h, i)
  {
    seq(n, i requires 0 <= i < n => Output(x, h, i))
  }

  // ---- Bounds ----

  lemma Scaled(a: int, b: int, c: int)
    requires 0 <= a && b <= c
    ensures a * b <= a * c
  {
  }

  lemma ProductBound(a: i16, b: i16)
    ensures -0x4000_0000 <= Product(a, b) <= 0x4000_0000
  {
    if a >= 0 {
      Scaled(a, -0x8000, b);
      Scaled(a, b, 0x8000);
    } else {
      var m: int := -(a as int);
      Scaled(m, -0x8000, b);
      Scaled(m, b, 0x8000);
      assert Product(a, b) == -(m * b);
    }
  }

  /** Every partial sum of at most 64 products stays within 2^36. */
  lemma {:induction false} AccumulatorBound(x: seq<i16>, h: seq<i16>, i: nat, n: nat)
    requires i + n <= |x| && n <= |h| && n <= MAX_TAPS
    ensures -0x4000_0000 * n <= Dot(x, h, i, n) <= 0x4000_0000 * n
    ensures -0x10_0000_0000 <= Dot(x, h, i, n) <= 0x10_0000_0000
  {
    hide Product;
    if n > 0 {
      AccumulatorBound(x, h, i, n - 1);
      ProductBound(x[i + n - 1], h[n - 1]);
    }
  }

  /** So the quotient by 32768 fits 32 bits: narrowing it loses nothing. */
  lemma QuotientFits(a: int)
    requires -0x10_0000_0000 <= a <= 0x10_0000_0000
    ensures -0x20_0000 <= TruncDiv(a, SHIFT) <= 0x20_0000
    ensures -0x8000_0000 <= TruncDiv(a, SHIFT) <= 0x7FFF_FFFF
  {
  }

  /** Truncation is rounding toward zero: the remainder has the sign of the
      dividend and is smaller than 32768. */
  lemma TruncationRoundsToZero(a: int)
    ensures var q := TruncDiv(a, SHIFT);
      var r := a - 32768 * q;
      -32768 < r < 32768 && (a >= 0 ==> r >= 0 && q >= 0) && (a <= 0 ==> r <= 0 && q <= 0)
  {
  }

  /** The scale, in plain numbers: inside the limits an output is the sum of
      products divided by 32768 with the fraction dropped, and it sits on a limit
      exactly when that quotient reaches or passes it. */
  lemma OutputScale(x: seq<i16>, h: seq<i16>, i: nat)
    requires i + |h| <= |x|
    ensures var d, y := Dot(x, h, i, |h|), Output(x, h, i);
      && (d >= 0 ==> y >= 0) && (d <= 0 ==> y <= 0)
      && (0 <= y < 32767 ==> 32768 * y - 32768 < d < 32768 * (y + 1))
      && (0 < y < 32767 ==> 32768 * y <= d)
      && (-32768 < y < 0 ==> 32768 * (y - 1) < d <= 32768 * y)
      && (y == 32767 <==> d >= 32768 * 32767)
      && (y == -32768 <==> d <= -32768 * 32768)
  {
    hide Dot;
  }

  /** A single tap of any weight picks out one sample. */
  lemma {:induction false} ImpulseDot(x: seq<i16>, h: seq<i16>, i: nat, t: nat, n: nat, weight: i16)
    requires i + n <= |x| && n <= |h| && t < |h|
    requires forall j :: 0 <= j < |h| ==> h[j] == if j == t then weight else 0
    ensures Dot(x, h, i, n) == if t < n then weight as int * x[i + t] as int else 0
  {
    if n > 0 {
      ImpulseDot(x, h, i, t, n - 1, weight);
    }
  }

  /** A filter whose only tap is -1.0 at position t returns the samples from
      position t on, negated; -1.0 itself saturates. */
  lemma {:induction false} ImpulseNegates(x: seq<i16>, h: seq<i16>, i: nat, t: nat)
    requires i + |h| <= |x| && t < |h|
    requires forall j :: 0 <= j < |h| ==> h[j] == if j == t then -0x8000 else 0
    ensures Output(x, h, i) == if x[i + t] == -0x8000 then 0x7FFF else -x[i + t]
  {
    hide Dot;
    ImpulseDot(x, h, i, t, |h|, -0x8000);
  }

  /** The filter is linear in its taps before the division. */
  lemma {:induction false} DotIsLinear(x: seq<i16>, g: seq<i16>, h: seq<i16>, s: seq<i16>, i: nat, n: nat)
    requires i + n <= |x| && n <= |g| && n <= |h| && n <= |s|
    requires forall j :: 0 <= j < n ==> s[j] as int == g[j] as int + h[j] as int
    ensures Dot(x, s, i, n) == Dot(x, g, i, n) + Dot(x, h, i, n)
  {
    if n > 0 {
      DotIsLinear(x, g, h, s, i, n - 1);
      var a: int, b: int, c: int := x[i + n - 1], g[n - 1], h[n - 1];
      assert a * (b + c) == a * b + a * c;
    }
  }

  function Truncate(q30: i64): i32
    requires -0x10_0000_0000 <= q30 <= 0x10_0000_0000
  {
    QuotientFits(q30);
    TruncDiv(q30, SHIFT)
  }

  // ---- Lanes and the modular accumulator ----

  /** A 16-bit value reinterpreted as unsigned. */
  function Unsigned16(x: i16): u16 {
    if x < 0 then x + 0x1_0000 else x
  }

  function Pack(low: i16, high: i16): u32 {
    Unsigned16(low) + 0x1_0000 * Unsigned16(high)
  }

  function SignedLane(value: u16): i16 {
    if value <= I16_MAX then value else -1 - (U16_MAX - value)
  }

  function LowLane(pair: u32): i16 {
    SignedLane(pair % 0x1_0000)
  }

  function HighLane(pair: u32): i16 {
    SignedLane(pair / 0x1_0000)
  }

  lemma LanesUnpack(low: i16, high: i16)
    ensures LowLane(Pack(low, high)) == low && HighLane(Pack(low, high)) == high
  {
  }

  function PairProducts(samples: u32, coefficients: u32): int {
    Product(LowLane(samples), LowLane(coefficients)) + Product(HighLane(samples), HighLane(coefficients))
  }

  /** A signed 64-bit value reinterpreted as unsigned, wrapping. */
  function Unsigned64(x: int): u64 {
    x % 0x1_0000_0000_0000_0000
  }

  /** The dual multiply-accumulate: both lane products are added to the
      accumulator modulo 2^64. */
  function Smlald(samples: u32, coefficients: u32, accumulator: u64): u64 {
    Unsigned64(accumulator + PairProducts(samples, coefficients))
  }

  function SignedAccumulator(value: u64): i64 {
    if value <= 0x7FFF_FFFF_FFFF_FFFF then value else -1 - (U64_MAX - value)
  }

  /** Signed saturation to a number of bits. */
  function Ssat(x: i32, bits: nat): int
    requires bits == 16
  {
    if x > 0x7FFF then 0x7FFF else if x < -0x8000 then -0x8000 else x
  }

  /** The wrapped sum decodes to the exact sum as long as that fits. */
  lemma ModularSumDecodes(sum: int)
    requires -0x8000_0000_0000_0000 <= sum <= 0x7FFF_FFFF_FFFF_FFFF
    ensures SignedAccumulator(Unsigned64(sum)) == sum
  {
  }

  lemma WrapThenAdd(sum: int, more: int)
    ensures Unsigned64(Unsigned64(sum) + more) == Unsigned64(sum + more)
  {
  }

  lemma PairIsTwoTaps(x: seq<i16>, h: seq<i16>, i: nat, n: nat)
    requires i + n + 2 <= |x| && n + 2 <= |h|
    ensures Dot(x, h, i, n + 2)
            == Dot(x, h, i, n) + PairProducts(Pack(x[i + n], x[i + n + 1]), Pack(h[n], h[n + 1]))
  {
    hide Pack, LowLane, HighLane, Product;
    LanesUnpack(x[i + n], x[i + n + 1]);
    LanesUnpack(h[n], h[n + 1]);
    assert Dot(x, h, i, n + 1) == Dot(x, h, i, n) + Product(x[i + n], h[n]);
  }

  // ---- The three loops over one memory ----

  /** The memory elements from an address on. */
  function At(cells: seq<i16>, pointer: u32, count: u32): seq<i16>
    requires pointer % 2 == 0 && pointer / 2 + count <= |cells|
  {
    cells[pointer / 2..pointer / 2 + count]
  }

  /** Arguments that a caller may pass: aligned pointers, and arrays that are
      really there whenever the call gets past validation. */
  ghost predicate Callable(cells: seq<i16>, a: Args) {
    && a.samples % 2 == 0 && a.coefficients % 2 == 0 && a.output % 2 == 0
    && (Verdict(a) == Ok ==>
          && a.samples / 2 + a.sampleCount <= |cells| && a.coefficients / 2 + a.tapCount <= |cells|
          && a.output / 2 + ValidOutputCount(a.sampleCount, a.tapCount) <= |cells|)
  }

  /** The memory after a call: the outputs written, nothing else touched; and
      nothing at all when the arguments are refused. */
  ghost function After(cells: seq<i16>, a: Args): seq<i16>
    requires Callable(cells, a)
  {
    if Verdict(a) != Ok then cells
    else
      var n := ValidOutputCount(a.sampleCount, a.tapCount);
      var at := a.output / 2;
      cells[..at] + Filtered(At(cells, a.samples, a.sampleCount), At(cells, a.coefficients, a.tapCount), n)
          + cells[at + n..]
  }

  /** The memory with the first done outputs written. */
  ghost predicate Progress(before: seq<i16>, cells: seq<i16>, a: Args, x: seq<i16>, h: seq<i16>, done: nat) {
    var at := a.output / 2;
    && |cells| == |before| && at + done <= |cells| && (done > 0 ==> done - 1 + |h| <= |x|)
    && (forall k :: 0 <= k < |cells| ==> cells[k] == if at <= k < at + done then Output(x, h, k - at) else before[k])
  }

  /** The inputs are where they were when the call began. */
  ghost predicate Intact(cells: seq<i16>, pointer: u32, x: seq<i16>) {
    && pointer / 2 + |x| <= |cells|
    && forall k :: 0 <= k < |x| ==> x[k] == cells[pointer / 2 + k]
  }

  /** The outputs written so far lie outside an input that shares no byte with
      the output. */
  lemma InputStays(before: seq<i16>, cells: seq<i16>, a: Args, x: seq<i16>, h: seq<i16>, done: nat, pointer: u32,
                   count: u32)
    requires pointer % 2 == 0 && a.output % 2 == 0 && pointer / 2 + count <= |before|
    requires done <= ValidOutputCount(a.sampleCount, a.tapCount)
    requires !Shares(a.output, ValidOutputCount(a.sampleCount, a.tapCount), pointer, count)
    requires Progress(before, cells, a, x, h, done)
    ensures Intact(cells, pointer, At(before, pointer, count))
  {
    hide Output;
    var n := ValidOutputCount(a.sampleCount, a.tapCount);
    forall index | pointer / 2 <= index < pointer / 2 + count ensures cells[index] == before[index] {
      assert !(Covers(a.output, n, 2 * index) && Covers(pointer, count, 2 * index));
    }
  }

  lemma InputsStay(before: seq<i16>, cells: seq<i16>, a: Args, done: nat)
    requires Callable(before, a) && Verdict(a) == Ok && done <= ValidOutputCount(a.sampleCount, a.tapCount)
    requires Progress(before, cells, a, At(before, a.samples, a.sampleCount), At(before, a.coefficients, a.tapCount),
                      done)
    ensures Intact(cells, a.samples, At(before, a.samples, a.sampleCount))
    ensures Intact(cells, a.coefficients, At(before, a.coefficients, a.tapCount))
  {
    hide Progress, Intact;
    var x, h := At(before, a.samples, a.sampleCount), At(before, a.coefficients, a.tapCount);
    InputStays(before, cells, a, x, h, done, a.samples, a.sampleCount);
    InputStays(before, cells, a, x, h, done, a.coefficients, a.tapCount);
  }

  lemma Advance(before: seq<i16>, cells: seq<i16>, a: Args, x: seq<i16>, h: seq<i16>, done: nat)
    requires Progress(before, cells, a, x, h, done) && a.output / 2 + done < |cells| && done + |h| <= |x|
    ensures Progress(before, cells[a.output / 2 + done := Output(x, h, done)], a, x, h, done + 1)
  {
    hide Output;
  }

  lemma Finished(before: seq<i16>, cells: seq<i16>, a: Args)
    requires Callable(before, a) && Verdict(a) == Ok
    requires Progress(before, cells, a, At(before, a.samples, a.sampleCount), At(before, a.coefficients, a.tapCount),
                      ValidOutputCount(a.sampleCount, a.tapCount))
    ensures cells == After(before, a)
  {
    hide Output;
  }

  lemma NothingYet(before: seq<i16>, a: Args, x: seq<i16>, h: seq<i16>)
    requires a.output / 2 <= |before|
    ensures Progress(before, before, a, x, h, 0)
  {
  }

  /** What every loop may assume while it computes output i. */
  ghost predicate Window(cells: seq<i16>, a: Args, i: nat, x: seq<i16>, h: seq<i16>) {
    && Intact(cells, a.samples, x) && Intact(cells, a.coefficients, h)
    && |h| == a.tapCount <= MAX_TAPS && i + |h| <= |x|
  }

  /** The reference sum: one product at a time. */
  method ScalarOutput(cells: array<i16>, a: Args, i: nat, ghost x: seq<i16>, ghost h: seq<i16>) returns (y: i16)
    requires Window(cells[..], a, i, x, h)
    ensures y == Output(x, h, i)
  {
    hide Output, Dot, Product;
    var accumulator: i64 := 0;
    DotOfNothing(x, h, i);
    for tap := 0 to a.tapCount
      invariant accumulator == Dot(x, h, i, tap)
    {
      NextTap(x, h, i, tap);
      assert x[i + tap] == cells[..][a.samples / 2 + (i + tap)] && h[tap] == cells[..][a.coefficients / 2 + tap];
      accumulator := accumulator + Product(cells[a.samples / 2 + i + tap], cells[a.coefficients / 2 + tap]);
    }
    OutputIs(x, h, i);
    y := Saturate(Truncate(accumulator));
  }

  /** The portable two-lane sum: two taps a turn through packed words, and an
      odd tap at the end. */
  method PackedOutput(cells: array<i16>, a: Args, i: nat, ghost x: seq<i16>, ghost h: seq<i16>) returns (y: i16)
    requires Window(cells[..], a, i, x, h)
    ensures y == Output(x, h, i)
  {
    hide Output, Dot, Product, Pack, PairProducts;
    var accumulator: i64 := 0;
    DotOfNothing(x, h, i);
    var tap := 0;
    while tap + 1 < a.tapCount
      invariant 0 <= tap <= a.tapCount && accumulator == Dot(x, h, i, tap)
    {
      InputsAt(cells[..], a, i, x, h, tap);
      InputsAt(cells[..], a, i, x, h, tap + 1);
      PairIsTwoTaps(x, h, i, tap);
      AccumulatorBound(x, h, i, tap + 2);
      var samples := Pack(cells[a.samples / 2 + i + tap], cells[a.samples / 2 + i + tap + 1]);
      var coefficients := Pack(cells[a.coefficients / 2 + tap], cells[a.coefficients / 2 + tap + 1]);
      accumulator := accumulator + PairProducts(samples, coefficients);
      tap := tap + 2;
    }
    if tap < a.tapCount {
      InputsAt(cells[..], a, i, x, h, tap);
      NextTap(x, h, i, tap);
      accumulator := accumulator + Product(cells[a.samples / 2 + i + tap], cells[a.coefficients / 2 + tap]);
    }
    OutputIs(x, h, i);
    y := Saturate(Truncate(accumulator));
  }

  /** The Cortex-M4 sum: dual multiply-accumulates into a 64-bit word that may
      wrap, decoded and saturated at the end. */
  method M4Output(cells: array<i16>, a: Args, i: nat, ghost x: seq<i16>, ghost h: seq<i16>) returns (y: i16)
    requires Window(cells[..], a, i, x, h)
    ensures y == Output(x, h, i)
  {
    hide Output, Dot, Product, Pack, PairProducts, Unsigned64, SignedAccumulator;
    var accumulator: u64 := 0;
    DotOfNothing(x, h, i);
    assert Unsigned64(0) == 0 by { UnsignedZero(); }
    var tap := 0;
    while tap + 1 < a.tapCount
      invariant 0 <= tap <= a.tapCount && accumulator == Unsigned64(Dot(x, h, i, tap))
    {
      InputsAt(cells[..], a, i, x, h, tap);
      InputsAt(cells[..], a, i, x, h, tap + 1);
      PairIsTwoTaps(x, h, i, tap);
      var samples := Pack(cells[a.samples / 2 + i + tap], cells[a.samples / 2 + i + tap + 1]);
      var coefficients := Pack(cells[a.coefficients / 2 + tap], cells[a.coefficients / 2 + tap + 1]);
      WrapThenAdd(Dot(x, h, i, tap), PairProducts(samples, coefficients));
      accumulator := Smlald(samples, coefficients, accumulator);
      tap := tap + 2;
    }
    if tap < a.tapCount {
      InputsAt(cells[..], a, i, x, h, tap);
      NextTap(x, h, i, tap);
      var tail := Product(cells[a.samples / 2 + i + tap], cells[a.coefficients / 2 + tap]);
      WrapTwice(Dot(x, h, i, tap), tail);
      accumulator := Unsigned64(accumulator + Unsigned64(tail));
    }
    OutputIs(x, h, i);
    ModularSumDecodes(Dot(x, h, i, a.tapCount));
    y := Ssat(Truncate(SignedAccumulator(accumulator)), 16);
  }

  lemma UnsignedZero()
    ensures Unsigned64(0) == 0
  {
  }

  lemma WrapTwice(sum: int, more: int)
    ensures Unsigned64(Unsigned64(sum) + Unsigned64(more)) == Unsigned64(sum + more)
  {
  }

  lemma InputsAt(cells: seq<i16>, a: Args, i: nat, x: seq<i16>, h: seq<i16>, tap: nat)
    requires Window(cells, a, i, x, h) && tap < |h|
    ensures a.samples / 2 + i + tap < |cells| && cells[a.samples / 2 + i + tap] == x[i + tap]
    ensures a.coefficients / 2 + tap < |cells| && cells[a.coefficients / 2 + tap] == h[tap]
  {
    assert x[i + tap] == cells[a.samples / 2 + (i + tap)];
  }

  /** The portable reference. */
  method Scalar(cells: array<i16>, a: Args) returns (status: Status)
    requires Callable(cells[..], a)
    modifies cells
    ensures status == Verdict(a) && cells[..] == After(old(cells[..]), a)
  {
    hide Output, Dot, Progress, Shares, Intact;
    status := Validate(a);
    if status != Ok { return; }
    ghost var before := cells[..];
    ghost var x, h := At(before, a.samples, a.sampleCount), At(before, a.coefficients, a.tapCount);
    var outputs := ValidOutputCount(a.sampleCount, a.tapCount);
    NothingYet(before, a, x, h);
    for i := 0 to outputs
      invariant cells.Length == |before| && Progress(before, cells[..], a, x, h, i)
    {
      InputsStay(before, cells[..], a, i);
      var y := ScalarOutput(cells, a, i, x, h);
      Advance(before, cells[..], a, x, h, i);
      cells[a.output / 2 + i] := y;
    }
    Finished(before, cells[..], a);
  }

  /** The portable two-lane filter. */
  method PackedPortable(cells: array<i16>, a: Args) returns (status: Status)
    requires Callable(cells[..], a)
    modifies cells
    ensures status == Verdict(a) && cells[..] == After(old(cells[..]), a)
  {
    hide Output, Dot, Progress, Shares, Intact;
    status := Validate(a);
    if status != Ok { return; }
    ghost var before := cells[..];
    ghost var x, h := At(before, a.samples, a.sampleCount), At(before, a.coefficients, a.tapCount);
    var outputs := ValidOutputCount(a.sampleCount, a.tapCount);
    NothingYet(before, a, x, h);
    for i := 0 to outputs
      invariant cells.Length == |before| && Progress(before, cells[..], a, x, h, i)
    {
      InputsStay(before, cells[..], a, i);
      var y := PackedOutput(cells, a, i, x, h);
      Advance(before, cells[..], a, x, h, i);
      cells[a.output / 2 + i] := y;
    }
    Finished(before, cells[..], a);
  }

  /** The Cortex-M4 filter. */
  method CortexM4(cells: array<i16>, a: Args) returns (status: Status)
    requires Callable(cells[..], a)
    modifies cells
    ensures status == Verdict(a) && cells[..] == After(old(cells[..]), a)
  {
    hide Output, Dot, Progress, Shares, Intact;
    status := Validate(a);
    if status != Ok { return; }
    ghost var before := cells[..];
    ghost var x, h := At(before, a.samples, a.sampleCount), At(before, a.coefficients, a.tapCount);
    var outputs := ValidOutputCount(a.sampleCount, a.tapCount);
    NothingYet(before, a, x, h);
    for i := 0 to outputs
      invariant cells.Length == |before| && Progress(before, cells[..], a, x, h, i)
    {
      InputsStay(before, cells[..], a, i);
      var y := M4Output(cells, a, i, x, h);
      Advance(before, cells[..], a, x, h, i);
      cells[a.output / 2 + i] := y;
    }
    Finished(before, cells[..], a);
  }

  lemma DotOfNothing(x: seq<i16>, h: seq<i16>, i: nat)
    requires i <= |x|
    ensures Dot(x, h, i, 0) == 0
  {
  }

  lemma NextTap(x: seq<i16>, h: seq<i16>, i: nat, n: nat)
    requires i + n < |x| && n < |h| <= MAX_TAPS
    ensures Dot(x, h, i, n + 1) == Dot(x, h, i, n) + Product(x[i + n], h[n])
    ensures -0x10_0000_0000 <= Dot(x, h, i, n + 1) <= 0x10_0000_0000
  {
    hide Product;
    AccumulatorBound(x, h, i, n + 1);
  }

  lemma OutputIs(x: seq<i16>, h: seq<i16>, i: nat)
    requires i + |h| <= |x| && |h| <= MAX_TAPS
    ensures -0x10_0000_0000 <= Dot(x, h, i, |h|) <= 0x10_0000_0000
    ensures Output(x, h, i) == Saturate(Truncate(Dot(x, h, i, |h|)))
  {
    hide Dot;
    AccumulatorBound(x, h, i, |h|);
  }
}
