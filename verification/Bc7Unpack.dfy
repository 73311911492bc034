/**
  The bit work of `unpack_bc7_mode0_2`, `unpack_bc7_mode1_3_7`, `unpack_bc7_mode4_5` and
  `unpack_bc7_mode6`: for every block each yields the fields the sequential reader finds.
*/
module Bc7Unpack {
  import opened Bits
  import opened Bc7Insert
  import opened Bc7Fields

  // for (p...) out[p] = (chunk >> p) & 1;
  method TakeBits(word: Word, count: nat, ghost block: Block, ghost pos: nat, ghost n: nat) returns (out: seq<nat>)
    requires Window(word, block, pos, n) && count <= n
    ensures out == ReadRun(block, pos, 1, count)
  {
    out := [];
    for p := 0 to count
      invariant |out| == p
      invariant forall k :: 0 <= k < p ==> out[k] == ReadRun(block, pos, 1, count)[k]
    {
      WindowShr(word, block, pos, n, p);
      WindowField(Shr(word, p), block, pos + p, n - p, 1);
      out := out + [Value(And(Shr(word, p), LowMask(1)))];
    }
  }

  lemma OneAnchor(x: Word, width: nat)
    requires 1 <= width <= 4
    ensures AnchorsFit([0], width, 16) && InsertAll(x, width, [0], 16) == InsertWeightZero(x, width, 0)
  {
    assert [0][..0] == [];
  }

  lemma TwoAnchors(x: Word, width: nat, a: nat)
    requires 1 <= width <= 4 && 0 < a < 16
    ensures AnchorsFit([0, a], width, 16) && 1 <= width * (a + 1) <= 64
    ensures InsertAll(x, width, [0, a], 16) == InsertWeightZero(InsertWeightZero(x, width, 0), width, a)
  {
    SlotInside(width, 16, a);
    assert [0, a][..1] == [0];
    OneAnchor(x, width);
  }

  lemma ThreeAnchors(x: Word, width: nat, a: nat, b: nat)
    requires 1 <= width <= 4 && 0 < a < b < 16
    ensures AnchorsFit([0, a, b], width, 16) && 1 <= width * (a + 1) <= 64 && 1 <= width * (b + 1) <= 64
    ensures InsertAll(x, width, [0, a, b], 16) ==
              InsertWeightZero(InsertWeightZero(InsertWeightZero(x, width, 0), width, a), width, b)
  {
    SlotInside(width, 16, b);
    assert [0, a, b][..2] == [0, a];
    TwoAnchors(x, width, a);
  }

  // A run of fields taken from low_chunk >> shift, from (low_chunk >> shift) | (high_chunk <<
  // (64 - shift)), or from high_chunk >> shift.
  method FromLow(block: Block, shift: nat, width: nat, count: nat) returns (out: seq<nat>)
    requires shift <= 64 && width * count <= 64 - shift
    ensures out == ReadRun(block, shift, width, count)
  {
    var low: Word := block[..64];
    LowWindow(block, shift);
    out := TakeFields(Shr(low, shift), width, count, block, shift, 64 - shift);
  }

  method FromBoth(block: Block, shift: nat, width: nat, count: nat) returns (out: seq<nat>)
    requires shift <= 64 && width * count <= 64
    ensures out == ReadRun(block, shift, width, count)
  {
    var low: Word, high: Word := block[..64], block[64..];
    SpanWindow(block, shift);
    out := TakeFields(Or(Shr(low, shift), Shl(high, 64 - shift)), width, count, block, shift, 64);
  }

  method FromHigh(block: Block, shift: nat, width: nat, count: nat) returns (out: seq<nat>)
    requires shift <= 64 && width * count <= 64
    ensures out == ReadRun(block, 64 + shift, width, count)
  {
    var high: Word := block[64..];
    HighWindow(block, shift);
    out := TakeFields(Shr(high, shift), width, count, block, 64 + shift, 64);
  }

  // (low_chunk >> shift) & ((1 << width) - 1)
  method FieldFromLow(block: Block, shift: nat, width: nat) returns (v: nat)
    requires shift + width <= 64
    ensures v == Read(block, shift, width)
  {
    var low: Word := block[..64];
    LowWindow(block, shift);
    WindowField(Shr(low, shift), block, shift, 64 - shift, width);
    v := Value(And(Shr(low, shift), LowMask(width)));
  }

  // pbits[p] = ((high_chunk >> shift) >> p) & 1
  method PBitsFromHigh(block: Block, shift: nat, count: nat) returns (out: seq<nat>)
    requires shift <= 64 && count <= 8
    ensures out == ReadRun(block, 64 + shift, 1, count)
  {
    var high: Word := block[64..];
    HighWindow(block, shift);
    out := TakeBits(Shr(high, shift), count, block, 64 + shift, 64);
  }

  // Mode 0 first cuts the chunk down to a byte.
  method PBitsFromHighByte(block: Block, shift: nat, count: nat) returns (out: seq<nat>)
    requires shift <= 64 && count <= 8
    ensures out == ReadRun(block, 64 + shift, 1, count)
  {
    var high: Word := block[64..];
    HighWindow(block, shift);
    LowBits(Shr(high, shift), 8);
    out := TakeBits(And(Shr(high, shift), LowMask(8)), count, block, 64 + shift, 8);
  }

  // The sixteen indices of a block with three, two or one subsets.
  method ThreeSubsetIndices(block: Block, shift: nat, width: nat, part: nat) returns (out: seq<nat>)
    requires shift <= 64 && 1 <= width <= 4 && part < 64
    ensures out == ReadIndices(block, 64 + shift, width, Anchors(3, part))
  {
    var high: Word := block[64..];
    HighWindow(block, shift);
    var weights := Shr(high, shift);
    ghost var stored := weights;
    var first, second := Min(ThirdAnchor1(part), ThirdAnchor2(part)), Max(ThirdAnchor1(part), ThirdAnchor2(part));
    ThreeAnchors(stored, width, first, second);
    weights := InsertWeightZero(weights, width, 0);
    weights := InsertWeightZero(weights, width, first);
    weights := InsertWeightZero(weights, width, second);
    out := TakeWeights(weights, width, stored, Anchors(3, part), block, 64 + shift);
  }

  method TwoSubsetIndices(block: Block, shift: nat, width: nat, part: nat) returns (out: seq<nat>)
    requires shift <= 64 && 1 <= width <= 4 && part < 64
    ensures out == ReadIndices(block, 64 + shift, width, Anchors(2, part))
  {
    var high: Word := block[64..];
    HighWindow(block, shift);
    var weights := Shr(high, shift);
    ghost var stored := weights;
    TwoAnchors(stored, width, SecondAnchor(part));
    weights := InsertWeightZero(weights, width, 0);
    weights := InsertWeightZero(weights, width, SecondAnchor(part));
    out := TakeWeights(weights, width, stored, Anchors(2, part), block, 64 + shift);
  }

  method OneSubsetIndices(word: Word, width: nat, ghost block: Block, ghost pos: nat) returns (out: seq<nat>)
    requires 1 <= width <= 4 && Window(word, block, pos, 64)
    ensures out == ReadIndices(block, pos, width, [0])
  {
    OneAnchor(word, width);
    out := TakeWeights(InsertWeightZero(word, width, 0), width, word, [0], block, pos);
  }

  method Unpack02(mode: nat, block: Block) returns (f: Fields)
    requires mode == 0 || mode == 2
    ensures f == ReadFields(block, mode)
  {
    var weightBits := if mode == 0 then 3 else 2;
    var endpointBits := if mode == 0 then 4 else 5;
    var partBits := if mode == 0 then 4 else 6;

    var part := FieldFromLow(block, mode + 1, partBits);
    PartBound(block, mode + 1, partBits);
    var red, green, blue, pbits;
    if mode == 0 {
      red := FromLow(block, 5, endpointBits, 6);
      green := FromLow(block, 29, endpointBits, 6);
      blue := FromBoth(block, 53, endpointBits, 6);
      pbits := PBitsFromHighByte(block, 13, 6);
    } else {
      red := FromLow(block, 9, endpointBits, 6);
      green := FromBoth(block, 39, endpointBits, 6);
      blue := FromHigh(block, 5, endpointBits, 6);
      pbits := [];
    }
    var indices := ThreeSubsetIndices(block, 67 - 16 * weightBits, weightBits, part);
    f := Fields(part, 0, 0, [red, green, blue], pbits, indices, []);
  }

  method Unpack137(mode: nat, block: Block) returns (f: Fields)
    requires mode == 1 || mode == 3 || mode == 7
    ensures f == ReadFields(block, mode)
  {
    var weightBits := if mode == 1 then 3 else 2;
    var endpointBits := if mode == 7 then 5 else if mode == 1 then 6 else 7;
    var pbitCount := if mode == 1 then 2 else 4;

    var part := FieldFromLow(block, mode + 1, 6);
    PartBound(block, mode + 1, 6);
    var red := FromLow(block, mode + 7, endpointBits, 4);
    var channels, green, blue, pbits, indices;
    if mode == 1 {
      green := FromLow(block, 32, endpointBits, 4);
      blue := FromBoth(block, 56, endpointBits, 4);
      channels := [red, green, blue];
      pbits := PBitsFromHigh(block, 16, pbitCount);
      indices := TwoSubsetIndices(block, 18, weightBits, part);
    } else if mode == 3 {
      green := FromBoth(block, 38, endpointBits, 4);
      blue := FromHigh(block, 2, endpointBits, 4);
      channels := [red, green, blue];
      pbits := PBitsFromHigh(block, 30, pbitCount);
      indices := TwoSubsetIndices(block, 34, weightBits, part);
    } else {
      green := FromLow(block, 34, endpointBits, 4);
      blue := FromBoth(block, 54, endpointBits, 4);
      var alpha := FromHigh(block, 10, endpointBits, 4);
      channels := [red, green, blue, alpha];
      pbits := PBitsFromHigh(block, 30, pbitCount);
      indices := TwoSubsetIndices(block, 34, weightBits, part);
    }
    f := Fields(part, 0, 0, channels, pbits, indices, []);
  }

  lemma RunPart(block: Block, pos: nat, width: nat, count: nat, from: nat, n: nat)
    requires from + n <= count
    ensures ReadRun(block, pos, width, count)[from..from + n] == ReadRun(block, pos + width * from, width, n)
  {
    var all, part := ReadRun(block, pos, width, count), ReadRun(block, pos + width * from, width, n);
    forall k | 0 <= k < n ensures all[from + k] == part[k] {
      assert width * (from + k) == width * from + width * k;
    }
  }

  lemma RunOfTwo(block: Block, pos: nat, width: nat)
    ensures ReadRun(block, pos, width, 2) == [Read(block, pos, width), Read(block, pos + width, width)]
  {
  }

  // Colours and alpha of the two endpoints: one run of six colour fields, then the alphas.
  method Endpoints45(mode: nat, block: Block) returns (channels: seq<seq<nat>>)
    requires mode == 4 || mode == 5
    ensures channels == ReadFields(block, mode).channels
  {
    var endpointBits := if mode == 4 then 5 else 7;
    var colors := FromLow(block, 8, endpointBits, 6);
    RunPart(block, 8, endpointBits, 6, 0, 2);
    RunPart(block, 8, endpointBits, 6, 2, 2);
    RunPart(block, 8, endpointBits, 6, 4, 2);
    var alpha0, alpha1;
    if mode == 4 {
      alpha0 := FieldFromLow(block, 38, 6);
      alpha1 := FieldFromLow(block, 44, 6);
    } else {
      alpha0 := FieldFromLow(block, 50, 8);
      var spanning := FromBoth(block, 58, 8, 1);
      alpha1 := spanning[0];
    }
    RunOfTwo(block, if mode == 4 then 38 else 50, if mode == 4 then 6 else 8);
    channels := [colors[0..2], colors[2..4], colors[4..6], [alpha0, alpha1]];
  }

  // Where the layout of modes 4 and 5 puts the two index runs.
  lemma IndexRuns45(mode: nat, block: Block)
    requires mode == 4 || mode == 5
    ensures var f := ReadFields(block, mode);
      && f.indices == ReadIndices(block, if mode == 4 then 50 else 66, 2, [0])
      && f.indices2 == ReadIndices(block, if mode == 4 then 81 else 97, if mode == 4 then 3 else 2, [0])
  {
  }

  // The words the two index runs start from.
  method IndexWords45(mode: nat, block: Block) returns (rgb: Word, alpha: Word)
    requires mode == 4 || mode == 5
    ensures Window(rgb, block, if mode == 4 then 50 else 66, 64)
    ensures Window(alpha, block, if mode == 4 then 81 else 97, 64)
  {
    var low: Word, high: Word := block[..64], block[64..];
    if mode == 4 {
      SpanWindow(block, 50);
      HighWindow(block, 17);
      rgb, alpha := Or(Shr(low, 50), Shl(high, 14)), Shr(high, 17);
    } else {
      HighWindow(block, 2);
      HighWindow(block, 33);
      rgb, alpha := Shr(high, 2), Shr(high, 33);
    }
  }

  // The two index runs, each with its one zero put back, swapped when the selector says so.
  method Indices45(mode: nat, block: Block, selector: nat) returns (weights: seq<nat>, alphaWeights: seq<nat>)
    requires (mode == 4 && selector < 2) || (mode == 5 && selector == 0)
    ensures var f := ReadFields(block, mode);
      && (selector == 0 ==> weights == f.indices && alphaWeights == f.indices2)
      && (selector == 1 ==> weights == f.indices2 && alphaWeights == f.indices)
  {
    var rgbChunk, alphaChunk := IndexWords45(mode, block);
    IndexRuns45(mode, block);
    weights := OneSubsetIndices(rgbChunk, 2, block, if mode == 4 then 50 else 66);
    alphaWeights := OneSubsetIndices(alphaChunk, if mode == 4 then 3 else 2, block, if mode == 4 then 81 else 97);
    if selector == 1 {
      weights, alphaWeights := alphaWeights, weights;
    }
  }

  lemma SelectorBound(block: Block, pos: nat)
    ensures Read(block, pos, 1) < 2
  {
    ValueBound(Slice(block, pos, 1));
    assert Pow2(1) == 2 * Pow2(0);
  }

  method Unpack45(mode: nat, block: Block) returns (f: Fields, weights: seq<nat>, alphaWeights: seq<nat>)
    requires mode == 4 || mode == 5
    ensures f == ReadFields(block, mode)
    ensures weights == if f.selector == 1 then f.indices2 else f.indices
    ensures alphaWeights == if f.selector == 1 then f.indices else f.indices2
  {
    var rotation := FieldFromLow(block, mode + 1, 2);
    var selector := 0;
    if mode == 4 {
      selector := FieldFromLow(block, 7, 1);
      SelectorBound(block, 7);
    }
    var channels := Endpoints45(mode, block);
    weights, alphaWeights := Indices45(mode, block, selector);
    f := Fields(0, rotation, selector, channels, [],
                if selector == 1 then alphaWeights else weights,
                if selector == 1 then weights else alphaWeights);
    assert Slice(block, mode + 1, 0) == [];
    assert mode == 5 ==> Slice(block, 8, 0) == [];
  }

  // Mode 6 reads through a bit-field struct: fifteen 4-bit indices after one of three bits.
  method Unpack6(block: Block) returns (f: Fields)
    ensures f == ReadFields(block, 6)
  {
    var channels := [[Read(block, 7, 7), Read(block, 14, 7)], [Read(block, 21, 7), Read(block, 28, 7)],
                     [Read(block, 35, 7), Read(block, 42, 7)], [Read(block, 49, 7), Read(block, 56, 7)]];
    var pbits := [Read(block, 63, 1), Read(block, 64, 1)];
    RunOfTwo(block, 7, 7);
    RunOfTwo(block, 21, 7);
    RunOfTwo(block, 35, 7);
    RunOfTwo(block, 49, 7);
    RunOfTwo(block, 63, 1);
    var indices := [Read(block, 65, 3)] + seq(15, i requires 0 <= i => Read(block, 68 + 4 * i, 4));
    forall i: nat | i < 16 ensures indices[i] == ReadIndices(block, 65, 4, [0])[i] {
      Mode6Index(block, i);
    }
    assert indices == ReadIndices(block, 65, 4, [0]);
    f := Fields(0, 0, 0, channels, pbits, indices, []);
    assert Slice(block, 7, 0) == [];
  }

  lemma Mode6Index(block: Block, i: nat)
    requires i < 16
    ensures ReadIndex(block, 65, 4, [0], i) == if i == 0 then Read(block, 65, 3) else Read(block, 64 + 4 * i, 4)
  {
    ReaderSkipsAnchors(4, [0], i);
    assert AnchorsBefore([0], i) == if i > 0 then 1 else 0 by {
      assert [0][..0] == [];
    }
  }
}
