/**
  The whole BC7 block decoder with the partition tables it ships.
*/
module Bc7Block {
  import Bits
  import opened Bc7Fields
  import opened Bc7Interp
  import opened Bc7Decode
  import Bc7Tables

  lemma PartitionsAreSubsets()
    ensures SubsetMap(Bc7Tables.SubsetOf)
  {
    forall n: nat, part: nat, i: nat | 2 <= n <= 3 ensures Bc7Tables.SubsetOf(n, part, i) < n {
      Bc7Tables.SubsetOfInRange(n, part, i);
    }
  }

  // Every 128-bit block: each texel is what the format's reader and scalar arithmetic give it,
  // with its subset taken from the decoder's own partition tables.
  method DecodeBlock(block: Block, pixels: array<Color>) returns (ok: bool)
    requires pixels.Length == 16
    modifies pixels
    ensures ok <==> Bits.LowestSetBit(block) < 8
    ensures IsDecoded(block, Bc7Tables.SubsetOf, pixels[..])
  {
    PartitionsAreSubsets();
    ok := UnpackBc7(block, Bc7Tables.SubsetOf, pixels);
  }
}
