/**
  The anchor tables of the BC7 decoder, in rows of eight entries.
*/
module Bc7Anchors {
  // g_bc7_table_anchor_index_second_subset
  function SecondSubset(row: nat): seq<nat>
    requires row < 8
  {
    match row
    case 0 => [15, 15, 15, 15, 15, 15, 15, 15]
    case 1 => [15, 15, 15, 15, 15, 15, 15, 15]
    case 2 => [15, 2, 8, 2, 2, 8, 8, 15]
    case 3 => [2, 8, 2, 2, 8, 8, 2, 2]
    case 4 => [15, 15, 6, 8, 2, 8, 15, 15]
    case 5 => [2, 8, 2, 2, 2, 15, 15, 6]
    case 6 => [6, 2, 6, 8, 15, 15, 2, 2]
    case _ => [15, 15, 15, 15, 15, 2, 2, 15]
  }

  // g_bc7_table_anchor_index_third_subset_1
  function ThirdSubset1(row: nat): seq<nat>
    requires row < 8
  {
    match row
    case 0 => [3, 3, 15, 15, 8, 3, 15, 15]
    case 1 => [8, 8, 6, 6, 6, 5, 3, 3]
    case 2 => [3, 3, 8, 15, 3, 3, 6, 10]
    case 3 => [5, 8, 8, 6, 8, 5, 15, 15]
    case 4 => [8, 15, 3, 5, 6, 10, 8, 15]
    case 5 => [15, 3, 15, 5, 15, 15, 15, 15]
    case 6 => [3, 15, 5, 5, 5, 8, 5, 10]
    case _ => [5, 10, 8, 13, 15, 12, 3, 3]
  }

  // g_bc7_table_anchor_index_third_subset_2
  function ThirdSubset2(row: nat): seq<nat>
    requires row < 8
  {
    match row
    case 0 => [15, 8, 8, 3, 15, 15, 3, 8]
    case 1 => [15, 15, 15, 15, 15, 15, 15, 8]
    case 2 => [15, 8, 15, 3, 15, 8, 15, 8]
    case 3 => [3, 15, 6, 10, 15, 15, 10, 8]
    case 4 => [15, 3, 15, 10, 10, 8, 9, 10]
    case 5 => [6, 15, 8, 15, 3, 6, 6, 8]
    case 6 => [15, 3, 15, 15, 15, 15, 15, 15]
    case _ => [15, 15, 15, 15, 3, 15, 15, 8]
  }

  // Anchors are inside the block, never texel 0, and the two of a three-subset block differ.
  lemma SecondAnchorUsable(row: nat, col: nat)
    requires row < 8 && col < 8
    ensures |SecondSubset(row)| == 8 && 0 < SecondSubset(row)[col] < 16
  {
  }

  lemma ThirdAnchorsUsable(row: nat, col: nat)
    requires row < 8 && col < 8
    ensures |ThirdSubset1(row)| == |ThirdSubset2(row)| == 8
    ensures 0 < ThirdSubset1(row)[col] < 16 && 0 < ThirdSubset2(row)[col] < 16
    ensures ThirdSubset1(row)[col] != ThirdSubset2(row)[col]
  {
  }
}
