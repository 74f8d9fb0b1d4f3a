/**
 * The DFPWM adaptive delta encoder of src/dfpwm.rs.
 *
 * The encoder tracks the signal with a fixed-point state machine: each sample
 * byte is turned into one bit (is the sample above the tracked level?), and
 * the bit drives `level` toward 127 or -128 by a step scaled by `response`,
 * which itself adapts by one unit per bit. Eight bits are packed into one
 * output byte, least-significant bit first.
 *
 * The pure functions below (Update, Run, Bits, Pack, GroupByte) are the
 * specification; the class Encoder is the in-place implementation, proved
 * against them.
 */
module Dfpwm {
  import opened Bytes

  // The four tuning constants declared by the source. RespInc, RespDec and
  // LpfStrength are never read by the encoder.
  const RespInc: int := 1
  const RespDec: int := 1
  const RespPrec: nat := 10
  const LpfStrength: int := 140

  /** `1 << (RespPrec - 1)`: the rounding bias added before the shift. */
  const RoundBias: int := 512
  /**
   * `1 << RespPrec`: the fixed-point scale. The source's `x >> RespPrec` on an
   * i32 is an arithmetic shift, that is floor division by this scale, which is
   * what Dafny's `/` computes for a positive divisor.
   */
  const RespScale: int := 1024
  /** `(1 << RespPrec) - 1`: the response a run of equal bits adapts toward. */
  const RespMax: int := 1023
  /** `2 << (RespPrec - 8)`: the response is never left below this floor. */
  const RespFloor: int := 8

  /** 2 to the power `n`. */
  function Pow2(n: nat): (p: nat)
    ensures p >= 1
  {
    if n == 0 then 1 else 2 * Pow2(n - 1)
  }

  /** The named constants are the shifts of RespPrec that the source writes. */
  lemma ShiftConstants()
    ensures RoundBias == Pow2(RespPrec - 1)
    ensures RespScale == Pow2(RespPrec)
    ensures RespMax == Pow2(RespPrec) - 1
    ensures RespFloor == 2 * Pow2(RespPrec - 8)
  {
    assert Pow2(2) == 4;
    assert Pow2(9) == 512;
  }

  // ---------------------------------------------------------------------
  // One step of the state machine
  // ---------------------------------------------------------------------

  /** The encoder state that `ctx_update` reads and writes. */
  datatype Ctx = Ctx(response: int, level: int, lastBit: bool)
  {
    /** The ranges every state reachable from a fresh encoder stays in. */
    predicate Valid() {
      0 <= response <= RespMax && -128 <= level <= 127
    }
  }

  /** The level a bit drives toward. */
  function Target(bit: bool): int {
    if bit then 127 else -128
  }

  /**
   * The level after encoding `bit`: a rounded step of `response / RespScale`
   * of the distance to the target, nudged by one toward the target when that
   * step rounds to zero short of it.
   */
  function NextLevel(response: int, level: int, bit: bool): int {
    var target := Target(bit);
    var stepped := level + (response * (target - level) + RoundBias) / RespScale;
    if stepped == level && level != target then
      stepped + (if bit then 1 else -1)
    else
      stepped
  }

  /**
   * The response after encoding `bit`: one unit toward RespMax when the bit
   * repeats the last one, toward 0 when it changes, then raised to RespFloor.
   */
  function NextResponse(response: int, lastBit: bool, bit: bool): int {
    var runTarget := if bit == lastBit then RespMax else 0;
    var moved :=
      if response != runTarget then response + (if bit == lastBit then 1 else -1)
      else response;
    if RespPrec > 8 && moved < RespFloor then RespFloor else moved
  }

  /** The whole effect of `ctx_update(bit)` on the state. */
  function Update(c: Ctx, bit: bool): Ctx {
    Ctx(NextResponse(c.response, c.lastBit, bit), NextLevel(c.response, c.level, bit), bit)
  }

  function Min(a: int, b: int): int { if a <= b then a else b }
  function Max(a: int, b: int): int { if a >= b then a else b }

  /** The product of a response and a distance lies between 0 and RespMax times that distance. */
  lemma ScaledBounds(response: int, diff: int)
    requires 0 <= response <= RespMax
    ensures diff >= 0 ==> 0 <= response * diff <= RespMax * diff
    ensures diff <= 0 ==> RespMax * diff <= response * diff <= 0
  {
    if diff >= 0 {
      assert (RespMax - response) * diff >= 0;
    } else {
      assert (RespMax - response) * (-diff) >= 0;
    }
  }

  /** Rounding a product that lies between 0 and RespMax times `diff` gives a step between 0 and `diff`. */
  lemma RoundedBounds(p: int, diff: int)
    requires diff >= 0 ==> 0 <= p <= RespMax * diff
    requires diff <= 0 ==> RespMax * diff <= p <= 0
    ensures diff >= 0 ==> 0 <= (p + RoundBias) / RespScale <= diff
    ensures diff <= 0 ==> diff <= (p + RoundBias) / RespScale <= 0
  {
  }

  /** The rounded step never overshoots the distance to the target. */
  lemma StepBounds(response: int, diff: int)
    requires 0 <= response <= RespMax
    ensures diff >= 0 ==> 0 <= (response * diff + RoundBias) / RespScale <= diff
    ensures diff <= 0 ==> diff <= (response * diff + RoundBias) / RespScale <= 0
  {
    ScaledBounds(response, diff);
    RoundedBounds(response * diff, diff);
  }

  /**
   * From a level within [-128, 127], the new level lies between the old level
   * and the target (so it stays within [-128, 127] and never overshoots); it
   * moves whenever the level is not yet at the target and stays put when it is.
   */
  lemma NextLevelTowardTarget(response: int, level: int, bit: bool)
    requires 0 <= response <= RespMax
    requires -128 <= level <= 127
    ensures bit ==> level <= NextLevel(response, level, bit) <= 127
    ensures !bit ==> -128 <= NextLevel(response, level, bit) <= level
    ensures NextLevel(response, level, bit) != level <==> level != Target(bit)
  {
    StepBounds(response, Target(bit) - level);
  }

  /**
   * The response moves one unit toward its run target (RespMax on a repeated
   * bit, 0 on a changed one) and is then raised to RespFloor, so it always
   * ends within [RespFloor, RespMax].
   */
  lemma NextResponseTowardRunTarget(response: int, lastBit: bool, bit: bool)
    requires 0 <= response <= RespMax
    ensures RespFloor <= NextResponse(response, lastBit, bit) <= RespMax
    ensures bit == lastBit ==>
      NextResponse(response, lastBit, bit) == Max(RespFloor, Min(response + 1, RespMax))
    ensures bit != lastBit ==>
      NextResponse(response, lastBit, bit) == Max(RespFloor, response - 1)
  {
  }

  /** One update keeps the state valid, lifts the response to the floor and records the bit. */
  lemma UpdateValid(c: Ctx, bit: bool)
    requires c.Valid()
    ensures Update(c, bit).Valid()
    ensures Update(c, bit).response >= RespFloor
    ensures Update(c, bit).lastBit == bit
  {
    NextLevelTowardTarget(c.response, c.level, bit);
    NextResponseTowardRunTarget(c.response, c.lastBit, bit);
  }

  /** Every intermediate value `ctx_update` computes on a valid state fits in an i32. */
  lemma UpdateFitsI32(c: Ctx, bit: bool)
    requires c.Valid()
    ensures InI32(Target(bit) - c.level)
    ensures InI32(c.response * (Target(bit) - c.level))
    ensures InI32(c.response * (Target(bit) - c.level) + RoundBias)
    ensures InI32(c.level + (c.response * (Target(bit) - c.level) + RoundBias) / RespScale)
    ensures InI32(NextLevel(c.response, c.level, bit))
    ensures InI32(c.response + 1) && InI32(c.response - 1)
  {
    ScaledBounds(c.response, Target(bit) - c.level);
    StepBounds(c.response, Target(bit) - c.level);
    NextLevelTowardTarget(c.response, c.level, bit);
  }

  // ---------------------------------------------------------------------
  // Encoding a run of samples
  // ---------------------------------------------------------------------

  /**
   * The bit `compress` emits for a sample byte, read as an unsigned value: the
   * sample is above the level, or equal to it when the level sits at 127.
   */
  function Decide(sample: uint8, level: int): bool {
    sample as int > level || (sample as int == level && level == 127)
  }

  /** With the level at most 127, a sample of 128 or more, or any sample over a negative level, gives bit 1. */
  lemma DecideHigh(sample: uint8, level: int)
    requires level <= 127
    ensures sample >= 128 ==> Decide(sample, level)
    ensures level < 0 ==> Decide(sample, level)
  {
  }

  /** The state after encoding `samples` one by one from `c`. */
  function Run(c: Ctx, samples: seq<uint8>): Ctx
    decreases |samples|
  {
    if |samples| == 0 then c
    else
      var before := Run(c, samples[..|samples| - 1]);
      Update(before, Decide(samples[|samples| - 1], before.level))
  }

  /** The bits emitted while encoding `samples` from `c`, one per sample, in order. */
  function Bits(c: Ctx, samples: seq<uint8>): (bits: seq<bool>)
    ensures |bits| == |samples|
    decreases |samples|
  {
    if |samples| == 0 then []
    else
      var init := samples[..|samples| - 1];
      Bits(c, init) + [Decide(samples[|samples| - 1], Run(c, init).level)]
  }

  /** Encoding keeps the state valid; after at least one sample the response is at or above the floor. */
  lemma {:induction false} RunValid(c: Ctx, samples: seq<uint8>)
    requires c.Valid()
    ensures Run(c, samples).Valid()
    ensures samples != [] ==> Run(c, samples).response >= RespFloor
    decreases |samples|
  {
    if samples != [] {
      var init := samples[..|samples| - 1];
      RunValid(c, init);
      UpdateValid(Run(c, init), Decide(samples[|samples| - 1], Run(c, init).level));
    }
  }

  /** Encoding `s + t` is encoding `s`, then `t` from the state `s` left behind. */
  lemma {:induction false} RunAppend(c: Ctx, s: seq<uint8>, t: seq<uint8>)
    ensures Run(c, s + t) == Run(Run(c, s), t)
    decreases |t|
  {
    if t == [] {
      assert s + t == s;
    } else {
      var t' := t[..|t| - 1];
      assert (s + t)[..|s + t| - 1] == s + t';
      RunAppend(c, s, t');
    }
  }

  /** The bits of `s + t` are the bits of `s` followed by the bits of `t` from the state `s` left behind. */
  lemma {:induction false} BitsAppend(c: Ctx, s: seq<uint8>, t: seq<uint8>)
    ensures Bits(c, s + t) == Bits(c, s) + Bits(Run(c, s), t)
    decreases |t|
  {
    if t == [] {
      assert s + t == s;
    } else {
      var t' := t[..|t| - 1];
      assert (s + t)[..|s + t| - 1] == s + t';
      BitsAppend(c, s, t');
      RunAppend(c, s, t');
    }
  }

  /**
   * Sample bytes of 128 or more (the upper half of the unsigned range) always
   * encode as 1 bits, whatever valid state the encoder starts in.
   */
  lemma {:induction false} HighSamplesGiveOnes(c: Ctx, samples: seq<uint8>)
    requires c.Valid()
    requires forall i :: 0 <= i < |samples| ==> samples[i] >= 128
    ensures forall k :: 0 <= k < |samples| ==> Bits(c, samples)[k]
    decreases |samples|
  {
    if samples != [] {
      var init := samples[..|samples| - 1];
      HighSamplesGiveOnes(c, init);
      RunValid(c, init);
      DecideHigh(samples[|samples| - 1], Run(c, init).level);
    }
  }

  // ---------------------------------------------------------------------
  // Bit packing
  // ---------------------------------------------------------------------

  /** The number whose bit k is `bits[k]`: the first bit is the least significant. */
  function Pack(bits: seq<bool>): (d: nat)
    ensures d < Pow2(|bits|)
  {
    if |bits| == 0 then 0
    else (if bits[0] then 1 else 0) + 2 * Pack(bits[1..])
  }

  /** Bit `k` of `d`, counted from the least significant. */
  function BitOf(d: nat, k: nat): bool {
    if k == 0 then d % 2 == 1 else BitOf(d / 2, k - 1)
  }

  /** Packing is exact: bit k of the packed number is the k-th bit packed, and every higher bit is clear. */
  lemma {:induction false} PackBits(bits: seq<bool>, k: nat)
    ensures k < |bits| ==> BitOf(Pack(bits), k) == bits[k]
    ensures k >= |bits| ==> !BitOf(Pack(bits), k)
    decreases k
  {
    if bits == [] {
      ZeroBits(k);
    } else if k > 0 {
      PackBits(bits[1..], k - 1);
    }
  }

  /** Zero has no bit set. */
  lemma {:induction false} ZeroBits(k: nat)
    ensures !BitOf(0, k)
    decreases k
  {
    if k > 0 {
      ZeroBits(k - 1);
    }
  }

  /** Appending a bit sets the next higher bit position. */
  lemma {:induction false} PackSnoc(bits: seq<bool>, b: bool)
    ensures Pack(bits + [b]) == Pack(bits) + (if b then Pow2(|bits|) else 0)
    decreases |bits|
  {
    if bits != [] {
      assert (bits + [b])[1..] == bits[1..] + [b];
      PackSnoc(bits[1..], b);
    }
  }

  lemma {:induction false} Pow2Add(a: nat, b: nat)
    ensures Pow2(a + b) == Pow2(a) * Pow2(b)
    decreases a
  {
    if a > 0 {
      Pow2Add(a - 1, b);
    }
  }

  /**
   * The packing accumulator after the first bits of a group: those bits packed
   * and shifted to the top of the byte, as `d >>= 1; d += 128` leaves them.
   */
  function Shifted(bits: seq<bool>): int
    requires |bits| <= 8
  {
    Pow2(8 - |bits|) * Pack(bits)
  }

  /** One step of the packing loop, `d >>= 1; d += 128 * bit`, appends a bit. */
  lemma PackStep(bits: seq<bool>, b: bool)
    requires |bits| < 8
    ensures Shifted(bits) / 2 + (if b then 128 else 0) == Shifted(bits + [b])
  {
    var j := |bits|;
    var d := Shifted(bits);
    var high: int, low: int, p: int := Pow2(7 - j), Pow2(j), Pack(bits);
    var bit: int := if b then low else 0;
    assert Pow2(8 - j) == 2 * high;
    MulAssoc(2, high, p);
    var hp := high * p;
    assert d == 2 * hp;
    assert d / 2 == hp;
    PackSnoc(bits, b);
    assert Pack(bits + [b]) == p + bit;
    Pow2Add(7 - j, j);
    assert Pow2(7) == 128;
    assert high * low == 128;
    MulDistrib(high, p, bit);
    assert high * bit == if b then 128 else 0;
  }

  // Nonlinear arithmetic helpers. Each states one identity as a lemma, so that
  // PackStep can name the product it needs instead of leaving the solver to
  // search for it; stated inline as assertions they make PackStep far slower.

  lemma MulAssoc(a: int, b: int, c: int)
    ensures (a * b) * c == a * (b * c)
  {
  }

  lemma MulDistrib(a: int, b: int, c: int)
    ensures a * (b + c) == a * b + a * c
  {
  }

  /** Encoding one more sample of `s` extends the state and the bits by one step. */
  lemma SnocStep(c: Ctx, s: seq<uint8>, j: nat)
    requires j < |s|
    ensures Run(c, s[..j + 1]) == Update(Run(c, s[..j]), Decide(s[j], Run(c, s[..j]).level))
    ensures Bits(c, s[..j + 1]) == Bits(c, s[..j]) + [Decide(s[j], Run(c, s[..j]).level)]
  {
    assert s[..j + 1][..j] == s[..j];
  }

  /** The byte `compress` packs from a group of eight samples encoded from state `c`. */
  function GroupByte(c: Ctx, group: seq<uint8>): uint8
    requires |group| == 8
  {
    assert Pow2(8) == 256;
    Pack(Bits(c, group)) as uint8
  }

  /** The accumulator after one more sample of `s`, in the form the packing loop keeps. */
  lemma PackedStep(c: Ctx, s: seq<uint8>, j: nat, bit: bool)
    requires j < |s| && j < 8
    requires bit == Decide(s[j], Run(c, s[..j]).level)
    ensures Shifted(Bits(c, s[..j])) / 2 + (if bit then 128 else 0) == Shifted(Bits(c, s[..j + 1]))
  {
    SnocStep(c, s, j);
    PackStep(Bits(c, s[..j]), bit);
  }

  /** Encoding `s[lo..hi + 8]` is encoding `s[lo..hi]`, then the group `s[hi..hi + 8]`. */
  lemma NextGroup(c: Ctx, s: seq<uint8>, lo: nat, hi: nat)
    requires lo <= hi && hi + 8 <= |s|
    ensures Run(c, s[lo .. hi + 8]) == Run(Run(c, s[lo .. hi]), s[hi .. hi + 8])
  {
    assert s[lo .. hi + 8] == s[lo .. hi] + s[hi .. hi + 8];
    RunAppend(c, s[lo .. hi], s[hi .. hi + 8]);
  }

  /** The byte of group g packs exactly bits 8g to 8g+7 of the whole bit stream. */
  lemma GroupByteOfStream(c: Ctx, samples: seq<uint8>, g: nat)
    requires 8 * g + 8 <= |samples|
    ensures GroupByte(Run(c, samples[..8 * g]), samples[8 * g .. 8 * g + 8]) as int
      == Pack(Bits(c, samples)[8 * g .. 8 * g + 8])
  {
    var front, group := samples[..8 * g], samples[8 * g .. 8 * g + 8];
    var back := samples[8 * g + 8 ..];
    assert samples == front + group + back;
    BitsAppend(c, front + group, back);
    BitsAppend(c, front, group);
    assert Bits(c, samples)[8 * g .. 8 * g + 8] == Bits(Run(c, front), group);
  }

  /** Packing only 1 bits gives the all-ones number of that width. */
  lemma {:induction false} PackOnes(bits: seq<bool>)
    requires forall k :: 0 <= k < |bits| ==> bits[k]
    ensures Pack(bits) == Pow2(|bits|) - 1
  {
    if bits != [] {
      PackOnes(bits[1..]);
    }
  }

  /** A group of eight samples of 128 or more encodes to the byte 0xFF. */
  lemma HighGroupByte(c: Ctx, group: seq<uint8>)
    requires c.Valid()
    requires |group| == 8
    requires forall i :: 0 <= i < 8 ==> group[i] >= 128
    ensures GroupByte(c, group) == 0xFF
  {
    HighSamplesGiveOnes(c, group);
    PackOnes(Bits(c, group));
    assert Pow2(8) == 256;
  }

  // ---------------------------------------------------------------------
  // The encoder object
  // ---------------------------------------------------------------------

  /** The source's struct DFPWM, updated in place. */
  class Encoder {
    var response: int
    var level: int
    var lastBit: bool
    // Declared for a low-pass filter that is never applied; nothing reads or writes them.
    var lastLevel: int
    var lpfLevel: int

    /** The state `ctx_update` works on. */
    function Context(): Ctx
      reads this
    {
      Ctx(response, level, lastBit)
    }

    ghost predicate Valid()
      reads this
    {
      Context().Valid()
    }

    /** `DFPWM::new`: every field zero. */
    constructor ()
      ensures response == 0 && level == 0 && !lastBit
      ensures lastLevel == 0 && lpfLevel == 0
      ensures Valid()
    {
      response := 0;
      level := 0;
      lastBit := false;
      lastLevel := 0;
      lpfLevel := 0;
    }

    /** `DFPWM::ctx_update`: advance the state after emitting `curBit`. */
    method CtxUpdate(curBit: bool)
      requires Valid()
      modifies this
      ensures Valid()
      ensures Context() == Update(old(Context()), curBit)
      ensures response >= RespFloor && lastBit == curBit
      ensures lastLevel == old(lastLevel) && lpfLevel == old(lpfLevel)
    {
      UpdateValid(Context(), curBit);
      var target := if curBit then 127 else -128;
      var nlevel := level + (response * (target - level) + RoundBias) / RespScale;
      if nlevel == level && level != target {
        nlevel := nlevel + if curBit then 1 else -1;
      }

      var rtarget := if curBit == lastBit then RespMax else 0;

      var nresponse := response;
      if response != rtarget {
        nresponse := nresponse + if curBit == lastBit then 1 else -1;
      }

      if RespPrec > 8 {
        if nresponse < RespFloor {
          nresponse := RespFloor;
        }
      }

      response := nresponse;
      lastBit := curBit;
      level := nlevel;
    }

    /**
     * The inner loop of `DFPWM::compress`: decide, pack and `ctx_update` the
     * eight samples at `src[offs..offs + 8]`, returning the accumulator `d`.
     */
    method CompressGroup(src: array<uint8>, offs: nat, ghost c0: Ctx, ghost srcOffs: nat) returns (d: int)
      requires Valid()
      requires srcOffs <= offs && offs + 8 <= src.Length
      requires Context() == Run(c0, src[srcOffs .. offs])
      modifies this
      ensures Valid()
      ensures Context() == Run(c0, src[srcOffs .. offs + 8])
      ensures 0 <= d < 256 && d as uint8 == GroupByte(Run(c0, src[srcOffs .. offs]), src[offs .. offs + 8])
      ensures lastLevel == old(lastLevel) && lpfLevel == old(lpfLevel)
    {
      ghost var c := Context();
      ghost var group := src[offs .. offs + 8];
      var p := offs;
      d := 0;
      for j := 0 to 8
        invariant p == offs + j
        invariant Valid()
        invariant Context() == Run(c, group[..j])
        invariant d == Shifted(Bits(c, group[..j]))
        invariant lastLevel == old(lastLevel) && lpfLevel == old(lpfLevel)
      {
        var inLevel := src[p] as int;
        p := p + 1;

        var curBit := inLevel > level || (inLevel == level && level == 127);
        assert curBit == Decide(group[j], Run(c, group[..j]).level);
        PackedStep(c, group, j, curBit);
        SnocStep(c, group, j);
        d := d / 2;
        d := d + if curBit then 128 else 0;
        CtxUpdate(curBit);
      }
      assert group[..8] == group;
      assert Pow2(8) == 256;
      NextGroup(c0, src[..], srcOffs, offs);
    }

    /**
     * `DFPWM::compress`: encode `len` groups of eight sample bytes from
     * `src[srcOffs..]`. The byte of every group is stored at `dest[destOffs]`,
     * which is never advanced, so that slot ends holding the last group's byte.
     */
    method Compress(src: array<uint8>, dest: array<uint8>, srcOffs: nat, destOffs: nat, len: nat)
      requires Valid()
      requires src != dest
      requires srcOffs + 8 * len <= src.Length
      requires len > 0 ==> destOffs < dest.Length
      modifies this, dest
      ensures Valid()
      ensures Context() == Run(old(Context()), src[srcOffs .. srcOffs + 8 * len])
      ensures lastLevel == old(lastLevel) && lpfLevel == old(lpfLevel)
      ensures len == 0 ==> dest[..] == old(dest[..]) && Context() == old(Context())
      ensures len > 0 ==>
        var lastGroup := srcOffs + 8 * (len - 1);
        dest[..] == old(dest[..])[destOffs :=
          GroupByte(Run(old(Context()), src[srcOffs .. lastGroup]), src[lastGroup .. lastGroup + 8])]
    {
      ghost var c0 := Context();
      ghost var last: uint8 := 0;
      ghost var prev := srcOffs;
      var offs := srcOffs;
      for g := 0 to len
        invariant offs == srcOffs + 8 * g
        invariant Valid()
        invariant Context() == Run(c0, src[srcOffs .. offs])
        invariant lastLevel == old(lastLevel) && lpfLevel == old(lpfLevel)
        invariant g == 0 ==> dest[..] == old(dest[..])
        invariant g > 0 ==> prev + 8 == offs
        invariant g > 0 ==> dest[..] == old(dest[..])[destOffs := last]
        invariant g > 0 ==> last == GroupByte(Run(c0, src[srcOffs .. prev]), src[prev .. offs])
      {
        var d := CompressGroup(src, offs, c0, srcOffs);
        last, prev := d as uint8, offs;
        offs := offs + 8;
        dest[destOffs] := d as uint8;
      }
    }
  }
}
