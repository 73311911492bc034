/**
  The placeholder map of `SharedMemoryMappingArea` (Windows branch): a split/coalesce allocator.

  `m_placeholder_ranges` maps the start of every free range of the area to its end.  The
  operating system calls are a success flag handed to each operation.
*/
module Placeholder {
  type Ranges = map<nat, nat>

  datatype View = View(start: nat, end: nat)

  // Non-empty ranges inside the area that never overlap nor touch.
  ghost predicate Canonical(m: Ranges, size: nat) {
    && (forall s :: s in m ==> s < m[s] <= size)
    && (forall s, t :: s in m && t in m && s < t ==> m[s] < t)
  }

  // The same, except that entry l may end where the next one starts.
  ghost predicate CanonicalBut(m: Ranges, size: nat, l: nat) {
    && (forall s :: s in m ==> s < m[s] <= size)
    && (forall s, t :: s in m && t in m && s < t ==> m[s] < t || (s == l && m[s] == t))
  }

  predicate Holds(m: Ranges, s: nat, x: int) { s in m && s <= x < m[s] }

  ghost predicate Covers(m: Ranges, x: int) { exists s :: Holds(m, s, x) }

  predicate InView(v: View, x: int) { v.start <= x < v.end }

  ghost predicate Viewed(views: set<View>, x: int) { exists v :: v in views && InView(v, x) }

  ghost predicate Apart(views: set<View>) {
    forall v, w, x: int :: v in views && w in views && InView(v, x) && InView(w, x) ==> v == w
  }

  // ------------------------------------------------------------------ canonical forms

  lemma StartsAgree(a: Ranges, b: Ranges, size: nat, s: nat)
    requires Canonical(a, size) && Canonical(b, size) && s in a
    requires forall x: int :: Covers(a, x) <==> Covers(b, x)
    ensures s in b
  {
    assert Holds(a, s, s) && !Covers(a, s - 1);
    assert Covers(a, s) && !Covers(b, s - 1);
    var t :| Holds(b, t, s);
    assert !Holds(b, t, s - 1);
  }

  lemma EndsAgree(a: Ranges, b: Ranges, size: nat, s: nat)
    requires Canonical(a, size) && Canonical(b, size) && s in a && s in b
    requires forall x: int :: Covers(a, x) <==> Covers(b, x)
    ensures a[s] >= b[s]
  {
    assert !Covers(a, a[s]);
    assert !Holds(b, s, a[s]);
  }

  // Two canonical maps covering the same offsets are the same map.
  lemma CanonicalIsUnique(a: Ranges, b: Ranges, size: nat)
    requires Canonical(a, size) && Canonical(b, size)
    requires forall x: int :: Covers(a, x) <==> Covers(b, x)
    ensures a == b
  {
    forall s: nat ensures s in a <==> s in b {
      if s in a {
        StartsAgree(a, b, size, s);
      }
      if s in b {
        StartsAgree(b, a, size, s);
      }
    }
    forall s | s in a ensures a[s] == b[s] {
      EndsAgree(a, b, size, s);
      EndsAgree(b, a, size, s);
    }
  }

  // ------------------------------------------------------------------ ordered-map navigation

  lemma {:induction false} LeastExists(keys: set<nat>) returns (k: nat)
    requires keys != {}
    ensures k in keys && forall j :: j in keys ==> k <= j
    decreases |keys|
  {
    k :| k in keys;
    if keys != {k} {
      var rest := keys - {k};
      assert forall j :: j in keys ==> j == k || j in rest;
      var l := LeastExists(rest);
      k := if l < k then l else k;
    }
  }

  lemma {:induction false} GreatestExists(keys: set<nat>) returns (k: nat)
    requires keys != {}
    ensures k in keys && forall j :: j in keys ==> j <= k
    decreases |keys|
  {
    k :| k in keys;
    if keys != {k} {
      var rest := keys - {k};
      assert forall j :: j in keys ==> j == k || j in rest;
      var l := GreatestExists(rest);
      k := if l > k then l else k;
    }
  }

  datatype Iterator = End | Key(key: nat)

  // m.lower_bound(offset)
  method LowerBound(m: Ranges, offset: nat) returns (it: Iterator)
    ensures it.End? <==> forall s :: s in m ==> s < offset
    ensures it.Key? ==> it.key in m && offset <= it.key && forall s :: s in m && offset <= s ==> it.key <= s
  {
    var keys := set s | s in m && offset <= s;
    assert forall s :: s in m && offset <= s ==> s in keys;
    if keys == {} {
      it := End;
    } else {
      ghost var least := LeastExists(keys);
      var k :| k in keys && forall j :: j in keys ==> k <= j;
      it := Key(k);
    }
  }

  // The entry before `bound` in key order: --it, or the last entry for a bound past them all.
  method Before(m: Ranges, bound: Iterator) returns (it: Iterator)
    ensures it.End? <==> forall s :: s in m ==> bound.Key? && bound.key <= s
    ensures it.Key? ==>
              && it.key in m && (bound.Key? ==> it.key < bound.key)
              && forall s :: s in m && (bound.Key? ==> s < bound.key) ==> s <= it.key
  {
    var keys := set s | s in m && (bound.Key? ==> s < bound.key);
    assert forall s :: s in m && (bound.Key? ==> s < bound.key) ==> s in keys;
    if keys == {} {
      it := End;
    } else {
      ghost var greatest := GreatestExists(keys);
      var k :| k in keys && forall j :: j in keys ==> j <= k;
      it := Key(k);
    }
  }

  // The entry holding the offset, or end() exactly when there is none.
  method FindPlaceholder(m: Ranges, size: nat, offset: nat, ghost touching: nat) returns (it: Iterator)
    requires CanonicalBut(m, size, touching)
    ensures it.Key? ==> Holds(m, it.key, offset)
    ensures it.End? <==> !Covers(m, offset)
  {
    if m != map[] {
      it := LowerBound(m, offset);
      if it.End? {
        it := Before(m, End);
      }
      if Holds(m, it.key, offset) {
        return it;
      }
      var first := Before(m, it);
      if first.Key? {
        it := first;
        if Holds(m, it.key, offset) {
          return it;
        }
      }
    }
    it := End;
  }

  // ------------------------------------------------------------------ the area

  // A covered stretch of a canonical map lies in one entry.
  lemma StretchInOneEntry(m: Ranges, size: nat, k: nat, off: nat, len: nat)
    requires Canonical(m, size) && Holds(m, k, off)
    requires forall x: int :: off <= x < off + len ==> Covers(m, x)
    ensures off + len <= m[k]
  {
    assert !Covers(m, m[k]);
  }

  // The views are non-empty, inside the area and apart, and cover what the placeholders do not.
  ghost predicate ViewsFit(m: Ranges, views: set<View>, size: nat) {
    && Apart(views)
    && (forall v :: v in views ==> v.start < v.end <= size)
    && (forall x: int :: 0 <= x < size ==> (Covers(m, x) <==> !Viewed(views, x)))
  }

  class SharedMemoryMappingArea {
    const size: nat
    var ranges: Ranges              // m_placeholder_ranges
    var numMappings: int            // m_num_mappings
    ghost var mapped: set<View>     // views handed out
    ghost var lost: set<View>       // carved out for a view the system then refused

    // The placeholders are canonical, and with the views (and whatever was lost to refused
    // mappings) they partition the area.
    ghost predicate Valid()
      reads this
    {
      && Canonical(ranges, size)
      && mapped !! lost && numMappings == |mapped|
      && ViewsFit(ranges, mapped + lost, size)
    }

    constructor (size: nat)
      requires size > 0
      ensures Valid() && this.size == size && mapped == {} && lost == {} && ranges == map[0 := size]
    {
      this.size := size;
      ranges := map[0 := size];
      numMappings := 0;
      mapped := {};
      lost := {};
      new;
      forall x: int | 0 <= x < size ensures Covers(ranges, x) {
        assert Holds(ranges, 0, x);
      }
    }

    // The part of Map that works on the placeholders: the entry holding the view's range is cut
    // off at the range (or erased), and what is left beyond it becomes an entry of its own.
    method Carve(off: nat, len: nat)
      requires Canonical(ranges, size) && len > 0
      requires forall x: int :: off <= x < off + len ==> Covers(ranges, x)
      modifies this`ranges
      ensures Canonical(ranges, size)
      ensures forall x: int :: Covers(ranges, x) <==> old(Covers(ranges, x)) && !(off <= x < off + len)
    {
      ghost var m := ranges;
      var it := FindPlaceholder(ranges, size, off, 0);
      assert Covers(m, off);
      var k := it.key;
      StretchInOneEntry(m, size, k, off, len);
      var oldEnd := ranges[k];
      if off != k {
        ranges := ranges[k := off];
      } else {
        ranges := ranges - {k};
      }
      if off + len != oldEnd {
        ranges := ranges[off + len := oldEnd];
      }
      assert IsCarved(m, k, off, len, ranges);
      CarveIsCanonical(m, size, k, off, len, ranges);
      forall x: int ensures Covers(ranges, x) <==> Covers(m, x) && !(off <= x < off + len) {
        CarveCovers(m, size, k, off, len, ranges, x);
      }
    }

    // The placeholders lose the range even when the system then refuses the view.
    method Map(off: nat, len: nat, granted: bool) returns (ok: bool)
      requires Valid() && len > 0
      requires forall x: int :: off <= x < off + len ==> Covers(ranges, x)
      modifies this
      ensures Valid() && ok == granted
      ensures forall x: int :: Covers(ranges, x) <==> old(Covers(ranges, x)) && !(off <= x < off + len)
      ensures ok ==> mapped == old(mapped) + {View(off, off + len)} && lost == old(lost)
      ensures !ok ==> mapped == old(mapped) && lost == old(lost) + {View(off, off + len)}
    {
      ghost var v, m := View(off, off + len), ranges;
      Carve(off, len);
      ViewTaken(m, ranges, mapped, lost, size, v);
      ok := granted;
      if granted {
        mapped := mapped + {v};
        numMappings := numMappings + 1;
      } else {
        lost := lost + {v};
      }
    }

    // The first half of Unmap's work on the placeholders: the released range is joined to the
    // entry that ends where it starts, or becomes an entry of its own.
    method JoinLeft(off: nat, len: nat) returns (left: nat)
      requires Canonical(ranges, size) && len > 0 && off + len <= size
      requires forall x: int :: off <= x < off + len ==> !Covers(ranges, x)
      modifies this`ranges
      ensures CanonicalBut(ranges, size, left) && left in ranges && ranges[left] == off + len
      ensures CoversAlso(old(ranges), ranges, off, len)
    {
      var leftIt := End;
      if off > 0 {
        leftIt := FindPlaceholder(ranges, size, off - 1, 0);
      }
      left := if leftIt.Key? then leftIt.key else off;
      assert !Covers(ranges, off);
      GrowWorks(ranges, size, left, off, len);
      ranges := ranges[left := off + len];
    }

    // The second half: the entry is joined to the one that starts where it ends.
    method JoinRight(left: nat)
      requires CanonicalBut(ranges, size, left) && left in ranges && ranges[left] <= size
      modifies this`ranges
      ensures Canonical(ranges, size)
      ensures forall x: int :: Covers(ranges, x) <==> old(Covers(ranges, x))
    {
      var rightIt := End;
      if ranges[left] < size {
        rightIt := FindPlaceholder(ranges, size, ranges[left], left);
      }
      JoinWorks(ranges, size, left, rightIt);
      if rightIt.Key? {
        ranges := ranges[left := ranges[rightIt.key]] - {rightIt.key};
      }
    }

    // Unmap's work on the placeholders.
    method Release(off: nat, len: nat)
      requires Canonical(ranges, size) && len > 0 && off + len <= size
      requires forall x: int :: off <= x < off + len ==> !Covers(ranges, x)
      modifies this`ranges
      ensures Canonical(ranges, size)
      ensures forall x: int :: Covers(ranges, x) <==> old(Covers(ranges, x)) || off <= x < off + len
    {
      ghost var m := ranges;
      var left := JoinLeft(off, len);
      ghost var t := ranges;
      JoinRight(left);
      SameCover(m, t, ranges, off, len);
    }

    method Unmap(off: nat, len: nat, granted: bool) returns (ok: bool)
      requires Valid() && View(off, off + len) in mapped
      modifies this
      ensures Valid() && ok == granted && lost == old(lost)
      ensures !ok ==> ranges == old(ranges) && mapped == old(mapped)
      ensures ok ==> mapped == old(mapped) - {View(off, off + len)}
      ensures ok ==> forall x: int :: Covers(ranges, x) <==> old(Covers(ranges, x)) || off <= x < off + len
    {
      if !granted {
        return false;
      }
      ghost var v, views, m := View(off, off + len), mapped + lost, ranges;
      GiveView(m, views, size, v);
      Release(off, len);
      ViewsFitGiven(m, ranges, views, size, v);
      mapped := mapped - {v};
      assert mapped + lost == views - {v};
      numMappings := numMappings - 1;
      ok := true;
    }

    // Unmap after Map restores the exact set of placeholders.
    method MapThenUnmap(off: nat, len: nat)
      requires Valid() && len > 0
      requires forall x: int :: off <= x < off + len ==> Covers(ranges, x)
      modifies this
      ensures Valid() && ranges == old(ranges) && mapped == old(mapped) && lost == old(lost)
    {
      ghost var m := ranges;
      TakeView(ranges, mapped + lost, size, View(off, off + len));
      var mappedOk := Map(off, len, true);
      var unmappedOk := Unmap(off, len, true);
      RangesFollowViews(m, ranges, mapped + lost, size);
    }
  }

  // The placeholders are determined by the views that are out: any sequence of calls that comes
  // back to the same views comes back to the same ranges, in whatever order they were given back.
  lemma RangesFollowViews(a: Ranges, b: Ranges, views: set<View>, size: nat)
    requires Canonical(a, size) && Canonical(b, size)
    requires ViewsFit(a, views, size) && ViewsFit(b, views, size)
    ensures a == b
  {
    forall x: int ensures Covers(a, x) <==> Covers(b, x) {
      if 0 <= x < size {
        assert Covers(a, x) <==> !Viewed(views, x);
      } else {
        CoversInside(a, size, x);
        CoversInside(b, size, x);
      }
    }
    CanonicalIsUnique(a, b, size);
  }

  lemma CoversInside(m: Ranges, size: nat, x: int)
    requires Canonical(m, size)
    ensures Covers(m, x) ==> 0 <= x < size
  {
  }

  // Placeholders and mapped views partition the area if and only if no view was refused.
  lemma PartitionIffNothingLost(m: Ranges, mapped: set<View>, lost: set<View>, size: nat)
    requires mapped !! lost && ViewsFit(m, mapped + lost, size)
    ensures (forall x: int :: 0 <= x < size ==> (Covers(m, x) <==> !Viewed(mapped, x))) <==> lost == {}
  {
    if lost == {} {
      assert mapped + lost == mapped;
    } else {
      var v :| v in lost;
      var x: int := v.start;
      assert InView(v, x) && v in mapped + lost && Viewed(mapped + lost, x);
      forall w | w in mapped ensures !InView(w, x) {
        assert w in mapped + lost && w != v;
      }
      assert !Covers(m, x) && !Viewed(mapped, x);
    }
  }

  // A refused view: the range is neither a placeholder nor mapped afterwards.
  method RefusedViewIsLost() returns (area: SharedMemoryMappingArea)
    ensures area.Valid() && area.size == 16 && area.mapped == {}
    ensures forall x: int :: 0 <= x < 16 ==> (Covers(area.ranges, x) <==> !(4 <= x < 8))
  {
    area := new SharedMemoryMappingArea(16);
    forall x: int | 0 <= x < 16 ensures Covers(area.ranges, x) {
      assert Holds(area.ranges, 0, x);
    }
    var ok := area.Map(4, 4, false);
  }

  // A range taken from the placeholders is apart from every view handed out so far.
  lemma TakeView(m: Ranges, views: set<View>, size: nat, v: View)
    requires Canonical(m, size) && ViewsFit(m, views, size) && v.start < v.end
    requires forall x: int :: v.start <= x < v.end ==> Covers(m, x)
    ensures v !in views && Apart(views + {v}) && v.end <= size
    ensures forall x: int :: Viewed(views + {v}, x) <==> Viewed(views, x) || InView(v, x)
  {
    assert InView(v, v.start) && Covers(m, v.start) && Covers(m, v.end - 1);
    forall w, x: int | w in views && InView(w, x) ensures !InView(v, x) {
      assert Viewed(views, x);
      assert InView(v, x) ==> Covers(m, x);
    }
    forall x: int ensures Viewed(views + {v}, x) <==> Viewed(views, x) || InView(v, x) {
      assert v in views + {v};
    }
  }

  lemma ViewsFitTaken(m: Ranges, t: Ranges, views: set<View>, size: nat, v: View)
    requires Canonical(m, size) && ViewsFit(m, views, size) && v.start < v.end
    requires forall x: int :: v.start <= x < v.end ==> Covers(m, x)
    requires forall x: int :: Covers(t, x) <==> Covers(m, x) && !(v.start <= x < v.end)
    ensures v !in views && ViewsFit(t, views + {v}, size)
  {
    TakeView(m, views, size, v);
  }

  // The new view may be counted as mapped or as lost.
  lemma ViewTaken(m: Ranges, t: Ranges, mapped: set<View>, lost: set<View>, size: nat, v: View)
    requires Canonical(m, size) && mapped !! lost && ViewsFit(m, mapped + lost, size) && v.start < v.end
    requires forall x: int :: v.start <= x < v.end ==> Covers(m, x)
    requires forall x: int :: Covers(t, x) <==> Covers(m, x) && !(v.start <= x < v.end)
    ensures mapped + {v} !! lost && ViewsFit(t, (mapped + {v}) + lost, size)
    ensures mapped !! lost + {v} && ViewsFit(t, mapped + (lost + {v}), size)
    ensures |mapped + {v}| == |mapped| + 1
  {
    ViewsFitTaken(m, t, mapped + lost, size, v);
    assert (mapped + {v}) + lost == (mapped + lost) + {v};
    assert mapped + (lost + {v}) == (mapped + lost) + {v};
  }

  lemma GiveView(m: Ranges, views: set<View>, size: nat, v: View)
    requires ViewsFit(m, views, size) && v in views
    ensures forall x: int :: v.start <= x < v.end ==> !Covers(m, x)
    ensures forall x: int :: Viewed(views - {v}, x) <==> Viewed(views, x) && !InView(v, x)
  {
    forall x: int | v.start <= x < v.end ensures !Covers(m, x) {
      assert InView(v, x);
    }
  }

  lemma ViewsFitGiven(m: Ranges, t: Ranges, views: set<View>, size: nat, v: View)
    requires ViewsFit(m, views, size) && v in views
    requires forall x: int :: Covers(t, x) <==> Covers(m, x) || v.start <= x < v.end
    ensures ViewsFit(t, views - {v}, size)
  {
    GiveView(m, views, size, v);
  }

  // t covers what m does and the stretch besides.
  ghost predicate CoversAlso(m: Ranges, t: Ranges, off: nat, len: nat) {
    forall x: int :: Covers(t, x) <==> Covers(m, x) || off <= x < off + len
  }

  // The released stretch put into entry l: either the one that ended at off, or a new one.
  lemma GrowWorks(m: Ranges, size: nat, l: nat, off: nat, len: nat)
    requires Canonical(m, size) && len > 0 && off + len <= size
    requires forall x: int :: off <= x < off + len ==> !Covers(m, x)
    requires if l == off then off > 0 ==> !Covers(m, off - 1) else Holds(m, l, off - 1)
    ensures CanonicalBut(m[l := off + len], size, l)
    ensures CoversAlso(m, m[l := off + len], off, len)
  {
    var t := m[l := off + len];
    GrowIsCanonical(m, size, l, off, len);
    assert !Covers(m, off) && !Holds(m, l, off);
    forall x: int ensures Covers(t, x) <==> Covers(m, x) || off <= x < off + len {
      if Covers(t, x) {
        var s :| Holds(t, s, x);
        assert s != l ==> Holds(m, s, x);
        assert s == l && x < off ==> Holds(m, l, x);
      }
      if Covers(m, x) {
        var s :| Holds(m, s, x);
        assert Holds(t, s, x);
      }
      assert off <= x < off + len ==> Holds(t, l, x);
    }
  }

  lemma GrowIsCanonical(m: Ranges, size: nat, l: nat, off: nat, len: nat)
    requires Canonical(m, size) && len > 0 && off + len <= size
    requires forall x: int :: off <= x < off + len ==> !Covers(m, x)
    requires if l == off then off > 0 ==> !Covers(m, off - 1) else Holds(m, l, off - 1)
    ensures CanonicalBut(m[l := off + len], size, l)
  {
    assert !Covers(m, off) && !Holds(m, l, off);
    forall s | s in m && s != l ensures (s < l ==> m[s] < l) && (l < s ==> off + len <= s) {
      assert Holds(m, s, s) && Covers(m, s);
      assert !Holds(m, s, off) && (l == off && off > 0 ==> !Holds(m, s, off - 1));
    }
  }

  lemma SameCover(m: Ranges, t: Ranges, u: Ranges, off: nat, len: nat)
    requires CoversAlso(m, t, off, len)
    requires forall x: int :: Covers(u, x) <==> Covers(t, x)
    ensures forall x: int :: Covers(u, x) <==> Covers(m, x) || off <= x < off + len
  {
  }

  // Entry l joined to the entry that starts where it ends, if there is one.
  lemma JoinWorks(t: Ranges, size: nat, l: nat, it: Iterator)
    requires CanonicalBut(t, size, l) && l in t
    requires it.End? ==> t[l] == size || !Covers(t, t[l])
    requires it.Key? ==> Holds(t, it.key, t[l])
    ensures it.End? ==> Canonical(t, size)
    ensures it.Key? ==> it.key == t[l] && Canonical(t[l := t[it.key]] - {it.key}, size)
    ensures it.Key? ==> forall x: int :: Covers(t[l := t[it.key]] - {it.key}, x) <==> Covers(t, x)
  {
    if it.End? {
      forall s | s in t ensures s != t[l] {
        assert Holds(t, s, s);
      }
    } else {
      var r := it.key;
      var u := t[l := t[r]] - {r};
      forall x: int ensures Covers(u, x) <==> Covers(t, x) {
        if Covers(u, x) {
          var s :| Holds(u, s, x);
          assert s != l ==> Holds(t, s, x);
          assert s == l ==> Holds(t, l, x) || Holds(t, r, x);
        }
        if Covers(t, x) {
          var s :| Holds(t, s, x);
          assert Holds(u, if s == r then l else s, x);
        }
      }
    }
  }

  // What Map leaves of the placeholders.
  ghost predicate IsCarved(m: Ranges, k: nat, off: nat, len: nat, t: Ranges) {
    && k in m
    && t.Keys == m.Keys - (if off == k then {k} else {}) + (if off + len != m[k] then {off + len} else {})
    && forall s :: s in t ==> t[s] == if s == k then off else if s == off + len then m[k] else m[s]
  }

  lemma CarveIsCanonical(m: Ranges, size: nat, k: nat, off: nat, len: nat, t: Ranges)
    requires Canonical(m, size) && len > 0 && IsCarved(m, k, off, len, t) && k <= off && off + len <= m[k]
    ensures Canonical(t, size)
  {
  }

  lemma CarveCovers(m: Ranges, size: nat, k: nat, off: nat, len: nat, t: Ranges, x: int)
    requires Canonical(m, size) && len > 0 && IsCarved(m, k, off, len, t) && k <= off && off + len <= m[k]
    ensures Covers(t, x) <==> Covers(m, x) && !(off <= x < off + len)
  {
    if Covers(t, x) {
      var s :| Holds(t, s, x);
      assert if s == k || s == off + len then Holds(m, k, x) else Holds(m, s, x);
    }
    if Covers(m, x) && !(off <= x < off + len) {
      var s :| Holds(m, s, x);
      assert if s != k then Holds(t, s, x) else if x < off then Holds(t, k, x) else Holds(t, off + len, x);
    }
  }
}
