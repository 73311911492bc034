/**
  BC7 interpolation: `bc7_interp2/3/4`, their SSE2 forms and `bc7_dequant`.

  An SSE2 register is a sequence of eight 16-bit lanes (or, packed, four colours of four bytes).
  Lane arithmetic wraps at 16 bits and packing saturates, as the instructions do.
*/
module Bc7Interp {
  import opened Bits

  type Color = c: seq<nat> | |c| == 4 && forall i :: 0 <= i < 4 ==> c[i] < 256 witness [0, 0, 0, 0]

  type Lanes = r: seq<nat> | |r| == 8 && forall i :: 0 <= i < 8 ==> r[i] < 65536 witness [0, 0, 0, 0, 0, 0, 0, 0]

  // ------------------------------------------------------------------ scalar

  // g_bc7_weights2, g_bc7_weights3, g_bc7_weights4
  function Weight(bits: nat, i: nat): (w: nat)
    requires (bits == 2 && i < 4) || (bits == 3 && i < 8) || (bits == 4 && i < 16)
    ensures w <= 64
  {
    if bits == 2 then [0, 21, 43, 64][i]
    else if bits == 3 then [0, 9, 18, 27, 37, 46, 55, 64][i]
    else [0, 4, 9, 13, 17, 21, 26, 30, 34, 38, 43, 47, 51, 55, 60, 64][i]
  }

  // The weights are the multiples of 64 / (2^bits - 1), each rounded to the nearest whole number.
  lemma WeightIsNearest(bits: nat, i: nat)
    requires (bits == 2 && i < 4) || (bits == 3 && i < 8) || (bits == 4 && i < 16)
    ensures var steps := if bits == 2 then 3 else if bits == 3 then 7 else 15;
      128 * i - steps < 2 * steps * Weight(bits, i) < 128 * i + steps
  {
  }

  function Blend(l: nat, h: nat, w: nat): nat
    requires w <= 64
  {
    (l * (64 - w) + h * w + 32) / 64
  }

  lemma MulLe(a: nat, b: nat, c: nat)
    requires a <= b
    ensures a * c <= b * c
  {
  }

  lemma WholeWeight(x: nat, w: nat)
    requires w <= 64
    ensures x * (64 - w) + x * w == 64 * x
  {
  }

  lemma BlendSum(l: nat, h: nat, w: nat)
    requires w <= 64 && l <= h
    ensures 64 * l <= l * (64 - w) + h * w <= 64 * h
  {
    MulLe(l, h, w);
    MulLe(l, h, 64 - w);
    WholeWeight(l, w);
    WholeWeight(h, w);
  }

  lemma Rounded(sum: nat, low: nat, high: nat)
    requires 64 * low <= sum <= 64 * high
    ensures low <= (sum + 32) / 64 <= high
  {
  }

  // Never outside the two endpoints, and the endpoints themselves at the ends.
  lemma BlendIsBetween(l: nat, h: nat, w: nat)
    requires w <= 64
    ensures l <= h ==> l <= Blend(l, h, w) <= h
    ensures h <= l ==> h <= Blend(l, h, w) <= l
  {
    if l <= h {
      BlendSum(l, h, w);
      Rounded(l * (64 - w) + h * w, l, h);
    }
    if h <= l {
      BlendSum(h, l, 64 - w);
      Rounded(l * (64 - w) + h * w, h, l);
    }
  }

  lemma BlendAtEnds(l: nat, h: nat)
    ensures Blend(l, h, 0) == l && Blend(l, h, 64) == h
  {
  }

  function BlendColor(a: Color, b: Color, w: nat): Color
    requires w <= 64
  {
    BlendIsBetween(a[0], b[0], w);
    BlendIsBetween(a[1], b[1], w);
    BlendIsBetween(a[2], b[2], w);
    BlendIsBetween(a[3], b[3], w);
    [Blend(a[0], b[0], w), Blend(a[1], b[1], w), Blend(a[2], b[2], w), Blend(a[3], b[3], w)]
  }

  // ------------------------------------------------------------------ SSE2 lanes

  function MulLo(a: nat, b: nat): nat { (a * b) % 65536 }
  function Add16(a: nat, b: nat): nat { (a + b) % 65536 }
  function Saturate(a: nat): nat { if a >= 32768 then 0 else if a > 255 then 255 else a }

  // Lanes wrap at 2^16, and packing reads them as signed and clamps them to a byte.
  lemma LanesAreSixteenBits(a: nat, b: nat)
    requires a < 65536 && b < 65536
    ensures Add16(a, b) == (if a + b < 65536 then a + b else a + b - 65536) && MulLo(a, 1) == a
    ensures var signed := if a < 32768 then a else a - 65536;
      Saturate(a) == if signed < 0 then 0 else if signed > 255 then 255 else signed
  {
  }

  // One lane of bc7_interp_sse2.
  function BlendLane(l: nat, h: nat, w: nat, iw: nat): nat {
    Add16(Add16(MulLo(l, iw), MulLo(h, w)), 32) / 64
  }

  lemma ByteSum(l: nat, h: nat, w: nat)
    requires l < 256 && h < 256 && w <= 64
    ensures l * (64 - w) + h * w <= 255 * 64
  {
    MulLe(l, 255, 64 - w);
    MulLe(h, 255, w);
  }

  // Below this bound neither product nor sum wraps, and packing does not saturate.
  lemma SmallLane(p: nat, q: nat)
    requires p + q <= 255 * 64
    ensures Add16(Add16(p % 65536, q % 65536), 32) / 64 == (p + q + 32) / 64 < 256
    ensures Saturate((p + q + 32) / 64) == (p + q + 32) / 64
  {
    assert p % 65536 == p && q % 65536 == q;
    assert Add16(p, q) == p + q;
    assert Add16(p + q, 32) == p + q + 32;
  }

  // With byte operands nothing wraps and nothing saturates.
  lemma BlendLaneIsExact(l: nat, h: nat, w: nat)
    requires l < 256 && h < 256 && w <= 64
    ensures BlendLane(l, h, w, 64 - w) == Blend(l, h, w) < 256
    ensures Saturate(BlendLane(l, h, w, 64 - w)) == Blend(l, h, w)
    ensures l * (64 - w) + h * w + 32 < 32768
  {
    ByteSum(l, h, w);
    SmallLane(l * (64 - w), h * w);
  }

  function Low4(a: Lanes): seq<nat> { a[0..4] }
  function High4(a: Lanes): seq<nat> { a[4..8] }

  // _mm_unpacklo_epi8 with zero, on two colours; _mm_shuffle_epi32 by (1, 0, 3, 2).
  function Widen(a: Color, b: Color): Lanes { [a[0], a[1], a[2], a[3], b[0], b[1], b[2], b[3]] }

  function SwapHalves(a: Lanes): Lanes { [a[4], a[5], a[6], a[7], a[0], a[1], a[2], a[3]] }

  // Weights given for the low and the high four lanes.
  function BlendLanes(l: Lanes, h: Lanes, wLow: nat, iwLow: nat, wHigh: nat, iwHigh: nat): Lanes {
    [BlendLane(l[0], h[0], wLow, iwLow), BlendLane(l[1], h[1], wLow, iwLow),
     BlendLane(l[2], h[2], wLow, iwLow), BlendLane(l[3], h[3], wLow, iwLow),
     BlendLane(l[4], h[4], wHigh, iwHigh), BlendLane(l[5], h[5], wHigh, iwHigh),
     BlendLane(l[6], h[6], wHigh, iwHigh), BlendLane(l[7], h[7], wHigh, iwHigh)]
  }

  // _mm_packus_epi16: the four colours held in two registers.
  function PackHalf(a: seq<nat>): Color
    requires |a| == 4
  {
    [Saturate(a[0]), Saturate(a[1]), Saturate(a[2]), Saturate(a[3])]
  }

  function Pack(a: Lanes, b: Lanes): seq<Color> {
    [PackHalf(Low4(a)), PackHalf(High4(a)), PackHalf(Low4(b)), PackHalf(High4(b))]
  }

  // _mm_unpacklo_epi64 and _mm_unpackhi_epi64
  function UnpackLow64(a: Lanes, b: Lanes): Lanes { [a[0], a[1], a[2], a[3], b[0], b[1], b[2], b[3]] }
  function UnpackHigh64(a: Lanes, b: Lanes): Lanes { [a[4], a[5], a[6], a[7], b[4], b[5], b[6], b[7]] }

  // ------------------------------------------------------------------ the SSE2 interpolators

  function Interp2Sse(e0: Color, e1: Color): seq<Color> {
    var ends := Widen(e0, e1);
    var inner := BlendLanes(ends, SwapHalves(ends), 21, 43, 21, 43);
    var all := Pack(inner, ends);
    [all[2], all[0], all[1], all[3]]
  }

  function Interp3Sse(e0: Color, e1: Color): seq<Color> {
    var ends := Widen(e0, e1);
    var swapped := SwapHalves(ends);
    var inner16 := BlendLanes(ends, swapped, 9, 55, 9, 55);
    var inner23 := BlendLanes(ends, swapped, 18, 46, 37, 27);
    var inner45 := BlendLanes(ends, swapped, 37, 27, 18, 46);
    var outer01 := UnpackLow64(ends, inner16);
    var outer67 := UnpackHigh64(inner16, ends);
    Pack(outer01, inner23) + Pack(inner45, outer67)
  }

  // One round of the mode 6 loop: four palette entries.
  function Interp4Round(e0: Color, e1: Color, w0: nat, w1: nat, w2: nat, w3: nat): seq<Color>
    requires w0 <= 64 && w1 <= 64 && w2 <= 64 && w3 <= 64
  {
    var lo, hi := Widen(e0, e0), Widen(e1, e1);
    Pack(BlendLanes(lo, hi, w0, 64 - w0, w1, 64 - w1), BlendLanes(lo, hi, w2, 64 - w2, w3, 64 - w3))
  }

  lemma HalfIsExact(e0: Color, e1: Color, w: nat, lanes: seq<nat>)
    requires w <= 64 && |lanes| == 4
    requires forall c :: 0 <= c < 4 ==> lanes[c] == BlendLane(e0[c], e1[c], w, 64 - w)
    ensures PackHalf(lanes) == BlendColor(e0, e1, w)
  {
    BlendLaneIsExact(e0[0], e1[0], w);
    BlendLaneIsExact(e0[1], e1[1], w);
    BlendLaneIsExact(e0[2], e1[2], w);
    BlendLaneIsExact(e0[3], e1[3], w);
  }

  // Blending with the ends swapped is blending with the complementary weight.
  lemma SwappedBlend(a: nat, b: nat, w: nat)
    requires w <= 64
    ensures BlendLane(b, a, 64 - w, w) == BlendLane(a, b, w, 64 - w)
  {
  }

  lemma SwappedHalfIsExact(e0: Color, e1: Color, w: nat, lanes: seq<nat>)
    requires w <= 64 && |lanes| == 4
    requires forall c :: 0 <= c < 4 ==> lanes[c] == BlendLane(e1[c], e0[c], 64 - w, w)
    ensures PackHalf(lanes) == BlendColor(e0, e1, w)
  {
    forall c | 0 <= c < 4 ensures lanes[c] == BlendLane(e0[c], e1[c], w, 64 - w) {
      SwappedBlend(e0[c], e1[c], w);
    }
    HalfIsExact(e0, e1, w, lanes);
  }

  lemma EndsAreExact(e0: Color, e1: Color)
    ensures PackHalf(e0) == e0 == BlendColor(e0, e1, 0)
    ensures PackHalf(e1) == e1 == BlendColor(e0, e1, 64)
  {
    BlendAtEnds(e0[0], e1[0]);
    BlendAtEnds(e0[1], e1[1]);
    BlendAtEnds(e0[2], e1[2]);
    BlendAtEnds(e0[3], e1[3]);
  }

  lemma Interp2IsScalar(e0: Color, e1: Color)
    ensures Interp2Sse(e0, e1) ==
              [BlendColor(e0, e1, 0), BlendColor(e0, e1, 21), BlendColor(e0, e1, 43), BlendColor(e0, e1, 64)]
  {
    var ends := Widen(e0, e1);
    var inner := BlendLanes(ends, SwapHalves(ends), 21, 43, 21, 43);
    EndsAreExact(e0, e1);
    assert Low4(ends) == e0 && High4(ends) == e1;
    HalfIsExact(e0, e1, 21, Low4(inner));
    SwappedHalfIsExact(e0, e1, 43, High4(inner));
  }

  lemma Interp3LowIsScalar(e0: Color, e1: Color)
    ensures Interp3Sse(e0, e1)[..4] ==
              [BlendColor(e0, e1, 0), BlendColor(e0, e1, 9), BlendColor(e0, e1, 18), BlendColor(e0, e1, 27)]
  {
    var ends := Widen(e0, e1);
    var inner16 := BlendLanes(ends, SwapHalves(ends), 9, 55, 9, 55);
    var inner23 := BlendLanes(ends, SwapHalves(ends), 18, 46, 37, 27);
    EndsAreExact(e0, e1);
    assert Low4(UnpackLow64(ends, inner16)) == e0 && High4(UnpackLow64(ends, inner16)) == Low4(inner16);
    HalfIsExact(e0, e1, 9, Low4(inner16));
    HalfIsExact(e0, e1, 18, Low4(inner23));
    SwappedHalfIsExact(e0, e1, 27, High4(inner23));
  }

  lemma Interp3HighIsScalar(e0: Color, e1: Color)
    ensures Interp3Sse(e0, e1)[4..] ==
              [BlendColor(e0, e1, 37), BlendColor(e0, e1, 46), BlendColor(e0, e1, 55), BlendColor(e0, e1, 64)]
  {
    var ends := Widen(e0, e1);
    var inner16 := BlendLanes(ends, SwapHalves(ends), 9, 55, 9, 55);
    var inner45 := BlendLanes(ends, SwapHalves(ends), 37, 27, 18, 46);
    EndsAreExact(e0, e1);
    assert High4(UnpackHigh64(inner16, ends)) == e1 && Low4(UnpackHigh64(inner16, ends)) == High4(inner16);
    HalfIsExact(e0, e1, 37, Low4(inner45));
    SwappedHalfIsExact(e0, e1, 46, High4(inner45));
    SwappedHalfIsExact(e0, e1, 55, High4(inner16));
  }

  lemma Interp3IsScalar(e0: Color, e1: Color)
    ensures Interp3Sse(e0, e1) ==
              [BlendColor(e0, e1, 0), BlendColor(e0, e1, 9), BlendColor(e0, e1, 18), BlendColor(e0, e1, 27),
               BlendColor(e0, e1, 37), BlendColor(e0, e1, 46), BlendColor(e0, e1, 55), BlendColor(e0, e1, 64)]
  {
    Interp3LowIsScalar(e0, e1);
    Interp3HighIsScalar(e0, e1);
    var all := Interp3Sse(e0, e1);
    assert all == all[..4] + all[4..];
  }

  lemma Interp4RoundIsScalar(e0: Color, e1: Color, w0: nat, w1: nat, w2: nat, w3: nat)
    requires w0 <= 64 && w1 <= 64 && w2 <= 64 && w3 <= 64
    ensures Interp4Round(e0, e1, w0, w1, w2, w3) ==
              [BlendColor(e0, e1, w0), BlendColor(e0, e1, w1), BlendColor(e0, e1, w2), BlendColor(e0, e1, w3)]
  {
    var lo, hi := Widen(e0, e0), Widen(e1, e1);
    var a, b := BlendLanes(lo, hi, w0, 64 - w0, w1, 64 - w1), BlendLanes(lo, hi, w2, 64 - w2, w3, 64 - w3);
    HalfIsExact(e0, e1, w0, Low4(a));
    HalfIsExact(e0, e1, w1, High4(a));
    HalfIsExact(e0, e1, w2, Low4(b));
    HalfIsExact(e0, e1, w3, High4(b));
  }

  // ------------------------------------------------------------------ palettes

  // What the SSE2 code leaves in block_colors: the scalar interpolation for every index.
  lemma Palette2(e0: Color, e1: Color, i: nat)
    requires i < 4
    ensures Interp2Sse(e0, e1)[i] == BlendColor(e0, e1, Weight(2, i))
  {
    Interp2IsScalar(e0, e1);
  }

  lemma Palette3(e0: Color, e1: Color, i: nat)
    requires i < 8
    ensures |Interp3Sse(e0, e1)| == 8 && Interp3Sse(e0, e1)[i] == BlendColor(e0, e1, Weight(3, i))
  {
    Interp3IsScalar(e0, e1);
  }

  // One round of the mode 6 loop, at entry `first`.
  method Interp4At(e0: Color, e1: Color, first: nat) returns (vals: seq<Color>)
    requires first <= 12
    ensures |vals| == 4
    ensures forall k :: 0 <= k < 4 ==> vals[k] == BlendColor(e0, e1, Weight(4, first + k))
  {
    var w0, w1, w2, w3 := Weight(4, first), Weight(4, first + 1), Weight(4, first + 2), Weight(4, first + 3);
    Interp4RoundIsScalar(e0, e1, w0, w1, w2, w3);
    vals := Interp4Round(e0, e1, w0, w1, w2, w3);
  }

  // The mode 6 loop: rounds of four entries, over g_bc7_weights4_sse2.
  method Interp4Sse(e0: Color, e1: Color) returns (vals: seq<Color>)
    ensures |vals| == 16
    ensures forall i :: 0 <= i < 16 ==> vals[i] == BlendColor(e0, e1, Weight(4, i))
  {
    vals := [];
    for r := 0 to 4
      invariant |vals| == 4 * r
      invariant forall i :: 0 <= i < 4 * r ==> vals[i] == BlendColor(e0, e1, Weight(4, i))
    {
      var four := Interp4At(e0, e1, 4 * r);
      forall i | 4 * r <= i < 4 * r + 4 ensures (vals + four)[i] == BlendColor(e0, e1, Weight(4, i)) {
        assert (vals + four)[i] == four[i - 4 * r];
      }
      vals := vals + four;
    }
  }

  // ------------------------------------------------------------------ bc7_dequant

  // `total` bits (any P-bit already appended) widened to eight.  The two terms of the | share no
  // bit, which is why it can be written as a sum.
  function Dequant(val: nat, total: nat): nat
    requires 4 <= total <= 8 && val < Pow2(total)
  {
    var shifted := val * Pow2(8 - total);
    shifted + shifted / Pow2(total)
  }

  // The value keeps its bits on top, repeats its highest ones below, and reaches both ends of
  // the byte.
  lemma DequantReplicates(val: nat, total: nat)
    requires 4 <= total <= 8 && val < Pow2(total)
    ensures Dequant(val, total) < 256
    ensures val * Pow2(8 - total) / Pow2(total) < Pow2(8 - total)
    ensures Dequant(val, total) / Pow2(8 - total) == val
    ensures val == 0 ==> Dequant(val, total) == 0
    ensures val == Pow2(total) - 1 ==> Dequant(val, total) == 255
  {
    SmallPowers();
    Replicates(val, Pow2(total), Pow2(8 - total));
  }

  // The bits below are the value's own highest ones.
  lemma DequantRepeatsHighBits(val: nat, total: nat)
    requires 4 <= total <= 8 && val < Pow2(total)
    ensures Dequant(val, total) % Pow2(8 - total) == val / Pow2(2 * total - 8)
  {
    SmallPowers();
    Replicates(val, Pow2(total), Pow2(8 - total));
    match total
    case 4 => assert Pow2(2 * total - 8) == 1;
    case 5 => assert Pow2(2 * total - 8) == 4;
    case 6 => assert Pow2(2 * total - 8) == 16;
    case 7 => assert Pow2(2 * total - 8) == 64;
    case _ => assert Pow2(2 * total - 8) == 256;
  }

  lemma SmallPowers()
    ensures Pow2(0) == 1 && Pow2(1) == 2 && Pow2(2) == 4 && Pow2(3) == 8
    ensures Pow2(4) == 16 && Pow2(5) == 32 && Pow2(6) == 64 && Pow2(7) == 128 && Pow2(8) == 256
  {
    assert Pow2(4) == 2 * Pow2(3) == 16;
  }

  lemma Replicates(val: nat, top: nat, rest: nat)
    requires val < top
    requires (top, rest) in {(16, 16), (32, 8), (64, 4), (128, 2), (256, 1)}
    ensures val * rest / top < rest && (val * rest + val * rest / top) / rest == val
    ensures val * rest + val * rest / top < 256
    ensures val == top - 1 ==> val * rest + val * rest / top == 255
    ensures rest == 16 ==> (val * rest + val * rest / top) % 16 == val
    ensures rest == 8 ==> (val * rest + val * rest / top) % 8 == val / 4
    ensures rest == 4 ==> (val * rest + val * rest / top) % 4 == val / 16
    ensures rest == 2 ==> (val * rest + val * rest / top) % 2 == val / 64
  {
    if rest == 16 {
      assert val * 16 / 16 == val;
    } else if rest == 8 {
      assert val * 8 / 32 == val / 4;
    } else if rest == 4 {
      assert val * 4 / 64 == val / 16;
    } else if rest == 2 {
      assert val * 2 / 128 == val / 64;
    }
  }
}
