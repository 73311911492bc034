/**
  `unpack_bc7` as a whole: for every 128-bit block the decoder's sixteen pixels are those of a
  reference decoder that follows the format field by field and texel by texel.

  The partition tables are the parameter `subsetOf(subsets, part, texel)`.
*/
module Bc7Decode {
  import opened Bits
  import opened Bc7Interp
  import opened Bc7Fields
  import opened Bc7Unpack
  import Bc7Tables

  // ------------------------------------------------------------------ field ranges

  ghost predicate Below(run: seq<nat>, count: nat, bits: nat) {
    |run| == count && forall e :: 0 <= e < count ==> run[e] < Pow2(bits)
  }

  ghost predicate FieldsFit(f: Fields, m: Mode) { EndpointsFit(f, m) && IndicesFit(f, m) }

  ghost predicate EndpointsFit(f: Fields, m: Mode) {
    && ChannelsFit(f.channels, 2 * m.subsets, m.colorBits, m.alphaBits)
    && Below(f.pbits, PBitCount(m), 1)
  }

  ghost predicate IndicesFit(f: Fields, m: Mode) {
    && Below(f.indices, 16, m.indexBits)
    && (m.index2Bits > 0 ==> Below(f.indices2, 16, m.index2Bits))
  }

  lemma RunBelow(block: Block, pos: nat, width: nat, count: nat)
    ensures Below(ReadRun(block, pos, width, count), count, width)
  {
    forall e: nat | e < count ensures ReadRun(block, pos, width, count)[e] < Pow2(width) {
      ValueBound(Slice(block, pos + width * e, width));
    }
  }

  lemma IndicesBelow(block: Block, pos: nat, width: nat, anchors: seq<nat>)
    requires width > 0
    ensures Below(ReadIndices(block, pos, width, anchors), 16, width)
  {
    forall i: nat | i < 16 ensures ReadIndices(block, pos, width, anchors)[i] < Pow2(width) {
      var n := IndexWidth(width, anchors, i);
      ValueBound(Slice(block, pos + ReaderAt(width, anchors, i), n));
      PowMonotone(n, width);
    }
  }

  lemma ReadLayoutFits(block: Block, mode: nat, m: Mode)
    requires m.partBits <= 6 && m.indexBits > 0 && m.subsets <= 16
    ensures FieldsFit(ReadLayout(block, mode, m), m)
  {
    ReadEndpointsFit(block, mode, m);
    ReadIndicesFit(block, mode, m);
  }

  ghost predicate ChannelsFit(channels: seq<seq<nat>>, n: nat, colorBits: nat, alphaBits: nat) {
    && |channels| == (if alphaBits > 0 then 4 else 3)
    && (forall c :: 0 <= c < 3 ==> Below(channels[c], n, colorBits))
    && (alphaBits > 0 ==> Below(channels[3], n, alphaBits))
  }

  lemma ReadChannelsFit(block: Block, redAt: nat, n: nat, colorBits: nat, alphaBits: nat)
    ensures ChannelsFit(ReadChannels(block, redAt, n, colorBits, alphaBits), n, colorBits, alphaBits)
  {
    var size := RunSize(n, colorBits);
    RunBelow(block, redAt, colorBits, n);
    RunBelow(block, redAt + size, colorBits, n);
    RunBelow(block, redAt + size + size, colorBits, n);
    RunBelow(block, redAt + size + size + size, alphaBits, n);
  }

  lemma ReadEndpointsFit(block: Block, mode: nat, m: Mode)
    requires m.partBits <= 6 && m.indexBits > 0 && m.subsets <= 16
    ensures EndpointsFit(ReadLayout(block, mode, m), m)
  {
    var n := 2 * m.subsets;
    var redAt := mode + 1 + m.partBits + m.rotBits + m.selBits;
    var pAt := redAt + EndpointSize(n, m.colorBits, m.alphaBits);
    ReadChannelsFit(block, redAt, n, m.colorBits, m.alphaBits);
    RunBelow(block, pAt, 1, PBitCount(m));
  }

  lemma ReadIndicesFit(block: Block, mode: nat, m: Mode)
    requires m.partBits <= 6 && m.indexBits > 0 && m.subsets <= 16
    ensures IndicesFit(ReadLayout(block, mode, m), m)
  {
    var n := 2 * m.subsets;
    var redAt := mode + 1 + m.partBits + m.rotBits + m.selBits;
    var indexAt := redAt + EndpointSize(n, m.colorBits, m.alphaBits) + PBitCount(m);
    PartBound(block, mode + 1, m.partBits);
    IndicesBelow(block, indexAt, m.indexBits, Anchors(m.subsets, Read(block, mode + 1, m.partBits)));
    if m.index2Bits > 0 {
      IndicesBelow(block, indexAt + IndexSize(m.indexBits, m.subsets), m.index2Bits, [0]);
    }
  }

  // ------------------------------------------------------------------ the reference

  lemma AppendP(v: nat, p: nat, bits: nat)
    requires v < Pow2(bits) && p < 2
    ensures 2 * v + p < Pow2(bits + 1)
  {
  }

  // Component c of endpoint e: its field, a P-bit appended if the mode has them, widened to a byte.
  function Component(f: Fields, m: Mode, e: nat, c: nat): (v: nat)
    requires FieldsFit(f, m) && e < 2 * m.subsets && c < 4
    requires 4 <= m.colorBits <= 7 && (m.alphaBits == 0 || 4 <= m.alphaBits <= 8)
    requires m.endpointP || m.subsetP ==> m.alphaBits <= 7
    ensures v < 256
  {
    var bits := if c == 3 then m.alphaBits else m.colorBits;
    if bits == 0 then 255
    else
      assert Below(f.channels[c], 2 * m.subsets, bits);
      var raw := f.channels[c][e];
      assert Pow2(1) == 2 * Pow2(0);
      if m.endpointP || m.subsetP then
        var p := if m.endpointP then f.pbits[e] else f.pbits[e / 2];
        AppendP(raw, p, bits);
        DequantReplicates(2 * raw + p, bits + 1);
        Dequant(2 * raw + p, bits + 1)
      else
        DequantReplicates(raw, bits);
        Dequant(raw, bits)
  }

  predicate ModeFits(m: Mode) {
    && 1 <= m.subsets <= 3 && 4 <= m.colorBits <= 7 && (m.alphaBits == 0 || 4 <= m.alphaBits <= 8)
    && (m.endpointP || m.subsetP ==> m.alphaBits <= 7)
    && 2 <= m.indexBits <= 4 && (m.index2Bits == 0 || 2 <= m.index2Bits <= 3)
  }

  function Endpoint(f: Fields, m: Mode, e: nat): Color
    requires FieldsFit(f, m) && ModeFits(m) && e < 2 * m.subsets
  {
    [Component(f, m, e, 0), Component(f, m, e, 1), Component(f, m, e, 2), Component(f, m, e, 3)]
  }

  function WeightOf(bits: nat, run: seq<nat>, i: nat): (w: nat)
    requires 2 <= bits <= 4 && Below(run, 16, bits) && i < 16
    ensures w <= 64
  {
    assert Pow2(2) == 4 && Pow2(3) == 8 && Pow2(4) == 16;
    Weight(bits, run[i])
  }

  // Component rotation: alpha changes places with red, green or blue.
  function Rotate(c: Color, rotation: nat): Color {
    if rotation == 1 then [c[3], c[1], c[2], c[0]]
    else if rotation == 2 then [c[0], c[3], c[2], c[1]]
    else if rotation == 3 then [c[0], c[1], c[3], c[2]]
    else c
  }

  // Rotation k exchanges alpha with component k - 1 and touches nothing else; 0 does nothing.
  lemma RotateIsSwap(c: Color, k: nat)
    requires k < 4
    ensures k == 0 ==> Rotate(c, k) == c
    ensures k > 0 ==> Rotate(c, k)[k - 1] == c[3] && Rotate(c, k)[3] == c[k - 1]
    ensures forall i :: 0 <= i < 3 && i != k - 1 ==> Rotate(c, k)[i] == c[i]
    ensures k > 0 ==> Rotate(c, k) == c[3 := c[k - 1]][k - 1 := c[3]]
  {
  }

  function WithAlpha(c: Color, a: nat): Color
    requires a < 256
  {
    [c[0], c[1], c[2], a]
  }

  // Texel i: blend the endpoints of its subset by its index; with two sets of indices the
  // selector says which one drives the colour and which one alpha.
  function Pixel(f: Fields, m: Mode, subset: nat, i: nat): Color
    requires FieldsFit(f, m) && ModeFits(m) && subset < m.subsets && i < 16
  {
    var e0, e1 := Endpoint(f, m, 2 * subset), Endpoint(f, m, 2 * subset + 1);
    var w := WeightOf(m.indexBits, f.indices, i);
    if m.index2Bits == 0 then BlendColor(e0, e1, w)
    else
      var w2 := WeightOf(m.index2Bits, f.indices2, i);
      var color := BlendColor(e0, e1, if f.selector == 1 then w2 else w);
      var alpha := if f.selector == 1 then w else w2;
      BlendIsBetween(e0[3], e1[3], alpha);
      Rotate(WithAlpha(color, Blend(e0[3], e1[3], alpha)), f.rotation)
  }

  lemma ModesFit(mode: nat)
    requires mode < 8
    ensures ModeFits(ModeOf(mode))
  {
  }

  // All sixteen texels of a block.  The mode is the lowest set bit; a block without one is
  // transparent black.
  ghost predicate IsDecoded(block: Block, subsetOf: (nat, nat, nat) -> nat, pixels: seq<Color>) {
    var mode := LowestSetBit(block);
    && |pixels| == 16
    && if mode == 8 then forall i :: 0 <= i < 16 ==> pixels[i] == [0, 0, 0, 0]
       else forall i: nat :: i < 16 ==> IsTexel(block, mode, subsetOf, i, pixels[i])
  }

  ghost predicate IsTexel(block: Block, mode: nat, subsetOf: (nat, nat, nat) -> nat, i: nat, c: Color)
    requires mode < 8 && i < 16
  {
    var f, m := ReadFields(block, mode), ModeOf(mode);
    ReadLayoutFits(block, mode, m);
    ModesFit(mode);
    var subset := if m.subsets == 1 then 0 else subsetOf(m.subsets, f.part, i);
    subset < m.subsets && c == Pixel(f, m, subset, i)
  }

  // ------------------------------------------------------------------ the decoder

  // The dequantisation of each routine, on the endpoint fields it has unpacked.
  function Dequantized(f: Fields, mode: nat, e: nat, c: nat): nat
    requires mode < 8 && FieldsFit(f, ModeOf(mode)) && e < 2 * ModeOf(mode).subsets && c < 4
  {
    ComponentFits(f, mode, e, c);
    if mode == 0 || mode == 2 then
      if c == 3 then 255
      else if mode == 0 then Dequant(2 * f.channels[c][e] + f.pbits[e], 5)
      else Dequant(f.channels[c][e], 5)
    else if mode == 1 || mode == 3 || mode == 7 then
      var bits := if mode == 7 then 5 else if mode == 1 then 6 else 7;
      if mode != 7 && c == 3 then 255
      else Dequant(2 * f.channels[c][e] + f.pbits[if mode == 1 then e / 2 else e], bits + 1)
    else if mode == 4 then Dequant(f.channels[c][e], if c == 3 then 6 else 5)
    else if mode == 5 then Dequant(f.channels[c][e], if c == 3 then 8 else 7)
    else 2 * f.channels[c][e] + f.pbits[e]
  }

  lemma ComponentFits(f: Fields, mode: nat, e: nat, c: nat)
    requires mode < 8 && FieldsFit(f, ModeOf(mode)) && e < 2 * ModeOf(mode).subsets && c < 4
    ensures var m := ModeOf(mode);
            var bits := if c == 3 then m.alphaBits else m.colorBits;
            bits > 0 ==>
              && c < |f.channels| && e < |f.channels[c]| && f.channels[c][e] < Pow2(bits)
              && (m.endpointP ==> e < |f.pbits| && 2 * f.channels[c][e] + f.pbits[e] < Pow2(bits + 1))
              && (m.subsetP ==> e / 2 < |f.pbits| && 2 * f.channels[c][e] + f.pbits[e / 2] < Pow2(bits + 1))
  {
    var m := ModeOf(mode);
    var bits := if c == 3 then m.alphaBits else m.colorBits;
    assert Pow2(1) == 2 * Pow2(0);
    if bits > 0 {
      assert Below(f.channels[c], 2 * m.subsets, bits);
    }
  }

  lemma DequantizedIsComponent(f: Fields, mode: nat, e: nat, c: nat)
    requires mode < 8 && FieldsFit(f, ModeOf(mode)) && ModeFits(ModeOf(mode))
    requires e < 2 * ModeOf(mode).subsets && c < 4
    ensures Dequantized(f, mode, e, c) == Component(f, ModeOf(mode), e, c)
  {
    if mode == 6 {
      FullByteComponent(f, mode, e, c);
    } else if mode == 0 || mode == 2 || mode == 4 || mode == 5 {
      EvenModes(f, mode, e, c);
    } else {
      OddModes(f, mode, e, c);
    }
  }

  lemma EvenModes(f: Fields, mode: nat, e: nat, c: nat)
    requires mode == 0 || mode == 2 || mode == 4 || mode == 5
    requires FieldsFit(f, ModeOf(mode)) && ModeFits(ModeOf(mode)) && e < 2 * ModeOf(mode).subsets && c < 4
    ensures Dequantized(f, mode, e, c) == Component(f, ModeOf(mode), e, c)
  {
  }

  lemma OddModes(f: Fields, mode: nat, e: nat, c: nat)
    requires mode == 1 || mode == 3 || mode == 7
    requires FieldsFit(f, ModeOf(mode)) && ModeFits(ModeOf(mode)) && e < 2 * ModeOf(mode).subsets && c < 4
    ensures Dequantized(f, mode, e, c) == Component(f, ModeOf(mode), e, c)
  {
    ComponentFits(f, mode, e, c);
    if mode == 7 || c < 3 {
      var bits := if c == 3 then ModeOf(mode).alphaBits else ModeOf(mode).colorBits;
      var v := 2 * f.channels[c][e] + f.pbits[if mode == 1 then e / 2 else e];
      assert Component(f, ModeOf(mode), e, c) == Dequant(v, bits + 1);
      assert Dequantized(f, mode, e, c) == Dequant(v, bits + 1);
    }
  }

  lemma FullByteComponent(f: Fields, mode: nat, e: nat, c: nat)
    requires mode == 6 && FieldsFit(f, ModeOf(mode)) && ModeFits(ModeOf(mode))
    requires e < 2 * ModeOf(mode).subsets && c < 4
    ensures Dequantized(f, mode, e, c) == Component(f, ModeOf(mode), e, c)
  {
    ComponentFits(f, mode, e, c);
    var total := ModeOf(mode).colorBits + 1;
    var v := 2 * f.channels[c][e] + f.pbits[e];
    assert Component(f, ModeOf(mode), e, c) == Dequant(v, total);
    FullByte(v, total);
  }

  // Eight bits need no widening.
  lemma FullByte(v: nat, total: nat)
    requires total == 8 && v < Pow2(total)
    ensures Dequant(v, total) == v
  {
    SmallPowers();
  }

  method Endpoints(f: Fields, mode: nat) returns (endpoints: seq<Color>)
    requires mode < 8 && FieldsFit(f, ModeOf(mode)) && ModeFits(ModeOf(mode))
    ensures |endpoints| == 2 * ModeOf(mode).subsets
    ensures forall e :: 0 <= e < |endpoints| ==> endpoints[e] == Endpoint(f, ModeOf(mode), e)
  {
    var m := ModeOf(mode);
    endpoints := [];
    for e := 0 to 2 * m.subsets
      invariant |endpoints| == e
      invariant forall k :: 0 <= k < e ==> endpoints[k] == Endpoint(f, m, k)
    {
      DequantizedIsComponent(f, mode, e, 0);
      DequantizedIsComponent(f, mode, e, 1);
      DequantizedIsComponent(f, mode, e, 2);
      DequantizedIsComponent(f, mode, e, 3);
      endpoints := endpoints + [[Dequantized(f, mode, e, 0), Dequantized(f, mode, e, 1),
                                 Dequantized(f, mode, e, 2), Dequantized(f, mode, e, 3)]];
    }
  }

  // block_colors for one pair of endpoints.
  method Palette(e0: Color, e1: Color, bits: nat) returns (colors: seq<Color>)
    requires bits == 2 || bits == 3
    ensures |colors| == Pow2(bits)
    ensures forall i :: 0 <= i < |colors| ==>
      i < (if bits == 2 then 4 else 8) && colors[i] == BlendColor(e0, e1, Weight(bits, i))
  {
    assert Pow2(2) == 4 && Pow2(3) == 8;
    if bits == 2 {
      colors := Interp2Sse(e0, e1);
      forall i: nat | i < 4 ensures colors[i] == BlendColor(e0, e1, Weight(2, i)) {
        Palette2(e0, e1, i);
      }
    } else {
      colors := Interp3Sse(e0, e1);
      Palette3(e0, e1, 0);
      forall i: nat | i < 8 ensures colors[i] == BlendColor(e0, e1, Weight(3, i)) {
        Palette3(e0, e1, i);
      }
    }
  }

  ghost predicate SubsetMap(subsetOf: (nat, nat, nat) -> nat) {
    forall n: nat, part: nat, i: nat :: 2 <= n <= 3 ==> subsetOf(n, part, i) < n
  }

  ghost predicate IsPalette(f: Fields, m: Mode, subset: nat, colors: seq<Color>)
    requires FieldsFit(f, m) && ModeFits(m) && subset < m.subsets && m.indexBits <= 3
  {
    && |colors| == Pow2(m.indexBits)
    && forall i :: 0 <= i < |colors| ==>
         && i < (if m.indexBits == 2 then 4 else 8)
         && colors[i] == BlendColor(Endpoint(f, m, 2 * subset), Endpoint(f, m, 2 * subset + 1), Weight(m.indexBits, i))
  }

  lemma PaletteGivesTexel(f: Fields, m: Mode, subset: nat, colors: seq<Color>, i: nat)
    requires FieldsFit(f, m) && ModeFits(m) && subset < m.subsets && m.indexBits <= 3 && m.index2Bits == 0 && i < 16
    requires IsPalette(f, m, subset, colors)
    ensures f.indices[i] < |colors| && colors[f.indices[i]] == Pixel(f, m, subset, i)
  {
  }

  method Palettes(f: Fields, mode: nat) returns (palettes: seq<seq<Color>>)
    requires mode < 8 && FieldsFit(f, ModeOf(mode)) && ModeFits(ModeOf(mode)) && ModeOf(mode).indexBits <= 3
    ensures |palettes| == ModeOf(mode).subsets
    ensures forall s :: 0 <= s < |palettes| ==> IsPalette(f, ModeOf(mode), s, palettes[s])
  {
    var m := ModeOf(mode);
    var endpoints := Endpoints(f, mode);
    palettes := [];
    for s := 0 to m.subsets
      invariant |palettes| == s
      invariant forall k :: 0 <= k < s ==> IsPalette(f, m, k, palettes[k])
    {
      var colors := Palette(endpoints[2 * s], endpoints[2 * s + 1], m.indexBits);
      palettes := palettes + [colors];
    }
  }

  // Modes 0, 1, 2, 3 and 7: a palette per subset, a texel picks from the palette of its own.
  method DecodeSubsets(mode: nat, block: Block, subsetOf: (nat, nat, nat) -> nat, pixels: array<Color>)
    requires mode in {0, 1, 2, 3, 7} && SubsetMap(subsetOf) && pixels.Length == 16
    modifies pixels
    ensures forall i: nat :: i < 16 ==> IsTexel(block, mode, subsetOf, i, pixels[i])
  {
    var f;
    if mode == 0 || mode == 2 {
      f := Unpack02(mode, block);
    } else {
      f := Unpack137(mode, block);
    }
    ReadLayoutFits(block, mode, ModeOf(mode));
    ModesFit(mode);
    FillSubsets(f, mode, subsetOf, pixels);
  }

  method FillSubsets(f: Fields, mode: nat, subsetOf: (nat, nat, nat) -> nat, pixels: array<Color>)
    requires mode in {0, 1, 2, 3, 7} && SubsetMap(subsetOf) && pixels.Length == 16
    requires FieldsFit(f, ModeOf(mode)) && ModeFits(ModeOf(mode))
    modifies pixels
    ensures forall i: nat :: i < 16 ==>
              pixels[i] == Pixel(f, ModeOf(mode), subsetOf(ModeOf(mode).subsets, f.part, i), i)
  {
    var m := ModeOf(mode);
    var palettes := Palettes(f, mode);
    for i := 0 to 16
      invariant forall k: nat :: k < i ==> pixels[k] == Pixel(f, m, subsetOf(m.subsets, f.part, k), k)
    {
      var subset := subsetOf(m.subsets, f.part, i);
      PaletteGivesTexel(f, m, subset, palettes[subset], i);
      pixels[i] := palettes[subset][f.indices[i]];
    }
  }

  // Two bits name the rotation.
  lemma RotationFits(block: Block, mode: nat)
    requires mode == 4 || mode == 5
    ensures ReadFields(block, mode).rotation < 4
  {
    ValueBound(Slice(block, mode + 1, 2));
    assert Pow2(2) == 2 * Pow2(1) == 4 * Pow2(0);
  }

  // Modes 4 and 5: separate colour and alpha indices, then the rotation.
  method Decode45(mode: nat, block: Block, subsetOf: (nat, nat, nat) -> nat, pixels: array<Color>)
    requires (mode == 4 || mode == 5) && pixels.Length == 16
    modifies pixels
    ensures forall i: nat :: i < 16 ==> IsTexel(block, mode, subsetOf, i, pixels[i])
  {
    var m := ModeOf(mode);
    var f, weights, alphaWeights := Unpack45(mode, block);
    ReadLayoutFits(block, mode, m);
    ModesFit(mode);
    var endpoints := Endpoints(f, mode);
    RotationFits(block, mode);
    FillRotated(f, m, endpoints[0], endpoints[1], weights, alphaWeights, pixels);
  }

  method FillRotated(f: Fields, m: Mode, e0: Color, e1: Color, weights: seq<nat>, alphaWeights: seq<nat>,
                     pixels: array<Color>)
    requires FieldsFit(f, m) && ModeFits(m) && m.subsets == 1 && m.indexBits <= 3 && m.index2Bits > 0
    requires e0 == Endpoint(f, m, 0) && e1 == Endpoint(f, m, 1)
    requires weights == if f.selector == 1 then f.indices2 else f.indices
    requires alphaWeights == if f.selector == 1 then f.indices else f.indices2
    requires pixels.Length == 16 && f.rotation < 4
    modifies pixels
    ensures forall i: nat :: i < 16 ==> pixels[i] == Pixel(f, m, 0, i)
  {
    var colorBits := if f.selector == 1 then m.index2Bits else m.indexBits;
    var alphaBits := if f.selector == 1 then m.indexBits else m.index2Bits;
    assert Pow2(2) == 4 && Pow2(3) == 8;
    var colors := Palette(e0, e1, colorBits);
    for i := 0 to 16
      invariant forall k: nat :: k < i ==> pixels[k] == Pixel(f, m, 0, k)
    {
      var w := Weight(alphaBits, alphaWeights[i]);
      BlendIsBetween(e0[3], e1[3], w);
      var c: Color := colors[weights[i]][3 := Blend(e0[3], e1[3], w)];
      if f.rotation >= 1 {
        var comp := f.rotation - 1;
        c := c[3 := c[comp]][comp := c[3]];
      }
      RotateIsSwap(colors[weights[i]][3 := Blend(e0[3], e1[3], w)], f.rotation);
      pixels[i] := c;
    }
  }

  method Decode6(block: Block, subsetOf: (nat, nat, nat) -> nat, pixels: array<Color>)
    requires pixels.Length == 16
    modifies pixels
    ensures forall i: nat :: i < 16 ==> IsTexel(block, 6, subsetOf, i, pixels[i])
  {
    var m := ModeOf(6);
    var f := Unpack6(block);
    ReadLayoutFits(block, 6, m);
    ModesFit(6);
    var endpoints := Endpoints(f, 6);
    var vals := Interp4Sse(endpoints[0], endpoints[1]);
    assert Pow2(4) == 16;
    for i := 0 to 16
      invariant forall k: nat :: k < i ==> IsTexel(block, 6, subsetOf, k, pixels[k])
    {
      pixels[i] := vals[f.indices[i]];
    }
  }

  // unpack_bc7: every block, every mode.
  method UnpackBc7(block: Block, subsetOf: (nat, nat, nat) -> nat, pixels: array<Color>) returns (ok: bool)
    requires SubsetMap(subsetOf) && pixels.Length == 16
    modifies pixels
    ensures ok <==> LowestSetBit(block) < 8
    ensures IsDecoded(block, subsetOf, pixels[..])
  {
    var mode := Bc7Tables.LookUpMode(block);
    ok := mode != 8;
    if mode in {0, 1, 2, 3, 7} {
      DecodeSubsets(mode, block, subsetOf, pixels);
    } else if mode == 4 || mode == 5 {
      Decode45(mode, block, subsetOf, pixels);
    } else if mode == 6 {
      Decode6(block, subsetOf, pixels);
    } else {
      for i := 0 to 16
        invariant forall k :: 0 <= k < i ==> pixels[k] == [0, 0, 0, 0]
      {
        pixels[i] := [0, 0, 0, 0];
      }
    }
  }
}
