/**
  The index part of a BC7 block.  The block stores 16 indices of `width` bits each, except that
  the topmost bit of every anchor's index is zero and left out.  The decoder puts the missing
  bits back by shifting (`insert_weight_zero`, anchors in increasing order) and then takes equal
  slices; the format describes a reader that takes one bit fewer at each anchor.
*/
module Bc7Insert {
  import opened Bits
  import opened Arithmetic

  function InsertWeightZero(x: Word, width: nat, offset: nat): Word
    requires 1 <= width * (offset + 1) <= 64
  {
    InsertAt(x, width * (offset + 1) - 1)
  }

  function InsertAt(x: Word, p: nat): Word {
    var low := LowMask(p);
    Or(Shl(And(x, Not(low)), 1), And(x, low))
  }

  // Bits below the insertion point stay, the others move up by one around a zero.
  lemma InsertAtShifts(x: Word, p: nat, q: nat)
    requires q < 64
    ensures InsertAt(x, p)[q] == if q < p then x[q] else if q == p then false else x[q - 1]
  {
    var high := And(x, Not(LowMask(p)));
    assert Shl(high, 1)[q] == (q > 0 && high[q - 1]);
  }

  ghost predicate AnchorsFit(anchors: seq<nat>, width: nat, count: nat) {
    && width >= 1 && width * count <= 64
    && (forall j :: 0 <= j < |anchors| ==> anchors[j] < count)
    && (forall i, j :: 0 <= i < j < |anchors| ==> anchors[i] < anchors[j])
  }

  lemma SlotInside(width: nat, count: nat, i: nat)
    requires i < count && width >= 1
    ensures width * (i + 1) == width * i + width && 1 <= width * (i + 1) <= width * count
    ensures i <= width * i
  {
    var after := count - i - 1;
    assert width * count == width * (i + 1) + width * after;
    assert width * after >= 0;
    assert width * i == i + (width - 1) * i;
  }

  function InsertAll(x: Word, width: nat, anchors: seq<nat>, count: nat): Word
    requires AnchorsFit(anchors, width, count)
    decreases |anchors|
  {
    if anchors == [] then x
    else
      var n := |anchors| - 1;
      SlotInside(width, count, anchors[n]);
      InsertWeightZero(InsertAll(x, width, anchors[..n], count), width, anchors[n])
  }

  // How many anchors come before index i.
  function AnchorsBefore(anchors: seq<nat>, i: nat): (n: nat)
    decreases |anchors|
  {
    if anchors == [] then 0
    else AnchorsBefore(anchors[..|anchors| - 1], i) + (if anchors[|anchors| - 1] < i then 1 else 0)
  }

  lemma {:induction false} BeforeIsBounded(anchors: seq<nat>, width: nat, count: nat, i: nat)
    requires AnchorsFit(anchors, width, count)
    ensures AnchorsBefore(anchors, i) <= i && AnchorsBefore(anchors, i) <= |anchors|
    ensures (forall j :: 0 <= j < |anchors| ==> anchors[j] < i) ==> AnchorsBefore(anchors, i) == |anchors|
    decreases |anchors|
  {
    if anchors != [] {
      var n := |anchors| - 1;
      BeforeIsBounded(anchors[..n], width, count, i);
      if anchors[n] < i {
        BeforeIsBounded(anchors[..n], width, count, anchors[n]);
      }
    }
  }

  // Where the bit at `pos`, of index i, comes from once every anchor has its zero back; `top` says
  // that it is the index's topmost.
  ghost predicate BitIs(x: Word, y: Word, anchors: seq<nat>, i: nat, pos: nat, top: bool)
    requires pos < 64 && AnchorsBefore(anchors, i) <= pos
  {
    y[pos] == if i in anchors && top then false else x[pos - AnchorsBefore(anchors, i)]
  }

  // The products that place an index and an anchor's topmost bit, one fact at a time.
  lemma IndexInside(width: nat, count: nat, i: nat, b: nat)
    requires i < count && b < width && width * count <= 64
    ensures width * i + b < 64 && i <= width * i
  {
    SlotInside(width, count, i);
  }

  lemma TopInside(width: nat, count: nat, a: nat)
    requires a < count && width >= 1 && width * count <= 64
    ensures 1 <= width * (a + 1) <= 64
  {
    SlotInside(width, count, a);
  }

  lemma PastTop(width: nat, i: nat, b: nat, a: nat)
    requires a < i
    ensures width * (a + 1) - 1 < width * i + b
  {
    assert width * (a + 1) == a * width + width && width * i == i * width;
    FewerMultiples(width, a, i);
  }

  lemma BelowTop(width: nat, i: nat, b: nat, a: nat)
    requires b < width && (i < a || (i == a && b < width - 1))
    ensures width * i + b < width * (a + 1) - 1
  {
    assert width * (a + 1) == a * width + width && width * i == i * width;
    if i < a {
      FewerMultiples(width, i, a);
    }
  }

  // Bits after the last anchor's top bit are moved up by it.
  lemma BitAfter(x: Word, y: Word, rest: seq<nat>, a: nat, i: nat, pos: nat, top: bool, p: nat)
    requires p < pos < 64 && a < i && (forall j :: 0 <= j < |rest| ==> rest[j] < a)
    requires AnchorsBefore(rest, i) == |rest| < pos && y[pos - 1] == x[pos - 1 - |rest|]
    ensures AnchorsBefore(rest + [a], i) <= pos && BitIs(x, InsertAt(y, p), rest + [a], i, pos, top)
  {
    assert (rest + [a])[..|rest|] == rest && i !in rest + [a];
    InsertAtShifts(y, p, pos);
  }

  // Bits before the last anchor's top bit are not moved by it, and it comes before none of them.
  lemma BitBelow(x: Word, y: Word, rest: seq<nat>, a: nat, i: nat, pos: nat, top: bool, p: nat)
    requires pos < p && pos < 64 && (i < a || (i == a && !top))
    requires AnchorsBefore(rest, i) <= pos && BitIs(x, y, rest, i, pos, top)
    ensures AnchorsBefore(rest + [a], i) == AnchorsBefore(rest, i)
    ensures BitIs(x, InsertAt(y, p), rest + [a], i, pos, top)
  {
    assert (rest + [a])[..|rest|] == rest;
    InsertAtShifts(y, p, pos);
  }

  // For any width and any increasing list of anchors.
  lemma {:induction false} InsertAllBits(x: Word, width: nat, anchors: seq<nat>, count: nat, i: nat, b: nat)
    requires AnchorsFit(anchors, width, count) && i < count && b < width
    ensures width * i + b < 64 && AnchorsBefore(anchors, i) <= width * i + b
    ensures BitIs(x, InsertAll(x, width, anchors, count), anchors, i, width * i + b, b == width - 1)
    decreases |anchors|, 1
  {
    IndexInside(width, count, i, b);
    BeforeIsBounded(anchors, width, count, i);
    if anchors != [] {
      var n := |anchors| - 1;
      if i > anchors[n] {
        var pos, p := PlacesPast(width, anchors, count, i, b);
        PreviousBit(x, width, anchors[..n], count, anchors[n], i, b, pos);
        BitsPastAnchor(x, width, anchors, count, i, b, pos, p);
      } else if i < anchors[n] || b < width - 1 {
        InsertAllBits(x, width, anchors[..n], count, i, b);
        BitsBelowAnchor(x, width, anchors, count, i, b);
      } else {
        BitOfAnchor(x, width, anchors, count, i, b);
      }
    }
  }

  // Index i lies past the last anchor, and all the others come before it too.
  lemma PlacesPast(width: nat, anchors: seq<nat>, count: nat, i: nat, b: nat) returns (pos: nat, p: nat)
    requires AnchorsFit(anchors, width, count) && i < count && b < width
    requires anchors != [] && anchors[|anchors| - 1] < i
    ensures pos == width * i + b && p == width * (anchors[|anchors| - 1] + 1) - 1 && p < pos < 64
    ensures AnchorsBefore(anchors[..|anchors| - 1], i) == |anchors| - 1
  {
    var a := anchors[|anchors| - 1];
    IndexInside(width, count, i, b);
    TopInside(width, count, a);
    PastTop(width, i, b, a);
    BeforeIsBounded(anchors[..|anchors| - 1], width, count, i);
    pos, p := width * i + b, width * (a + 1) - 1;
  }

  lemma BitsPastAnchor(x: Word, width: nat, anchors: seq<nat>, count: nat, i: nat, b: nat, pos: nat, p: nat)
    requires AnchorsFit(anchors, width, count) && anchors != [] && anchors[|anchors| - 1] < i
    requires p == width * (anchors[|anchors| - 1] + 1) - 1 && p < pos < 64
    requires var rest := anchors[..|anchors| - 1];
      AnchorsBefore(rest, i) == |rest| < pos
      && InsertAll(x, width, rest, count)[pos - 1] == x[pos - 1 - |rest|]
    ensures AnchorsBefore(anchors, i) <= pos
    ensures BitIs(x, InsertAll(x, width, anchors, count), anchors, i, pos, b == width - 1)
  {
    var a, rest := anchors[|anchors| - 1], anchors[..|anchors| - 1];
    assert anchors == rest + [a];
    BitAfter(x, InsertAll(x, width, rest, count), rest, a, i, pos, b == width - 1, p);
  }

  lemma BitsBelowAnchor(x: Word, width: nat, anchors: seq<nat>, count: nat, i: nat, b: nat)
    requires AnchorsFit(anchors, width, count) && i < count && b < width && anchors != []
    requires var a := anchors[|anchors| - 1]; i < a || (i == a && b < width - 1)
    requires var rest := anchors[..|anchors| - 1];
      width * i + b < 64 && AnchorsBefore(rest, i) <= width * i + b
      && BitIs(x, InsertAll(x, width, rest, count), rest, i, width * i + b, b == width - 1)
    ensures AnchorsBefore(anchors, i) <= width * i + b
    ensures BitIs(x, InsertAll(x, width, anchors, count), anchors, i, width * i + b, b == width - 1)
  {
    var n := |anchors| - 1;
    var a, rest := anchors[n], anchors[..n];
    var pos, top, p := width * i + b, b == width - 1, width * (a + 1) - 1;
    TopInside(width, count, a);
    BelowTop(width, i, b, a);
    assert anchors == rest + [a];
    BitBelow(x, InsertAll(x, width, rest, count), rest, a, i, pos, top, p);
  }

  lemma BitOfAnchor(x: Word, width: nat, anchors: seq<nat>, count: nat, i: nat, b: nat)
    requires AnchorsFit(anchors, width, count) && anchors != [] && i == anchors[|anchors| - 1] && b == width - 1
    requires width * i + b < 64 && AnchorsBefore(anchors, i) <= width * i + b
    ensures BitIs(x, InsertAll(x, width, anchors, count), anchors, i, width * i + b, true)
  {
    var n := |anchors| - 1;
    TopInside(width, count, i);
    assert width * (i + 1) - 1 == width * i + b;
    InsertAtShifts(InsertAll(x, width, anchors[..n], count), width * (i + 1) - 1, width * i + b);
  }

  // Beyond the last anchor so far, the bit before a given one is the stored bit as many places
  // back as there are anchors.
  lemma {:induction false} PreviousBit(x: Word, width: nat, rest: seq<nat>, count: nat, a: nat,
                                       i: nat, b: nat, pos: nat)
    requires AnchorsFit(rest, width, count) && a < i < count && b < width && pos == width * i + b
    requires forall j :: 0 <= j < |rest| ==> rest[j] < a
    ensures |rest| < pos <= 64 && InsertAll(x, width, rest, count)[pos - 1] == x[pos - 1 - |rest|]
    decreases |rest|, 3
  {
    PreviousSlot(width, i);
    if b > 0 {
      BitPast(x, width, rest, count, i, b - 1);
    } else {
      BitPast(x, width, rest, count, i - 1, width - 1);
    }
  }

  lemma PreviousSlot(width: nat, i: nat)
    requires i > 0
    ensures width * i == width * (i - 1) + width
  {
  }

  // The topmost bit of an index that is no anchor, or any bit after all anchors.
  lemma {:induction false} BitPast(x: Word, width: nat, rest: seq<nat>, count: nat, i: nat, b: nat)
    requires AnchorsFit(rest, width, count) && i < count && b < width
    requires forall j :: 0 <= j < |rest| ==> rest[j] < i
    ensures width * i + b < 64 && |rest| <= width * i + b
    ensures InsertAll(x, width, rest, count)[width * i + b] == x[width * i + b - |rest|]
    decreases |rest|, 2
  {
    BeforeIsBounded(rest, width, count, i);
    SlotInside(width, count, i);
    InsertAllBits(x, width, rest, count, i, b);
    assert i !in rest;
  }
}
