/**
  Where a path leads, and exactly when Path::Canonicalize keeps it.
*/
module PathMeaning {
  import opened PathText
  import opened PathCanonical

  // A place in the file tree: below the root, or so many levels up from the current directory,
  // and down these names.
  datatype Place = Place(absolute: bool, ups: nat, names: seq<string>)

  const HERE: Place := Place(false, 0, [])

  // One component further; the root is its own parent.
  function Visit(pl: Place, part: string): (r: Place) {
    if part == "" then pl.(absolute := true)
    else if part == "." then pl
    else if part != ".." then pl.(names := pl.names + [part])
    else if pl.names != [] then pl.(names := pl.names[..|pl.names| - 1])
    else if pl.absolute then pl
    else pl.(ups := pl.ups + 1)
  }

  function Walk(parts: seq<string>): (pl: Place) {
    if parts == [] then HERE else Visit(Walk(parts[..|parts| - 1]), parts[|parts| - 1])
  }

  function Meaning(path: string): (pl: Place) { Walk(Components(path)) }

  // Somewhere on the way the walk asks for the parent of the root.
  predicate ClimbsOverRoot(parts: seq<string>) {
    parts != [] &&
    var init := parts[..|parts| - 1];
    || ClimbsOverRoot(init)
    || (parts[|parts| - 1] == ".." && Walk(init).absolute && Walk(init).names == [])
  }

  predicate Ordinary(name: string) { name != "" && name != "." && name != ".." }

  predicate Rooted(parts: seq<string>) { parts != [] && parts[0] == "" }

  lemma {:induction false} WalkFits(parts: seq<string>)
    requires WellFormed(parts)
    ensures forall i :: 0 <= i < |Walk(parts).names| ==> Ordinary(Walk(parts).names[i])
    ensures Walk(parts).absolute <==> Rooted(parts)
    ensures Walk(parts).absolute ==> Walk(parts).ups == 0
  {
    if parts != [] {
      WalkFits(parts[..|parts| - 1]);
    }
  }

  // Ordinary names are walked straight down.
  lemma {:induction false} WalkDown(front: seq<string>, names: seq<string>)
    requires forall i :: 0 <= i < |names| ==> Ordinary(names[i])
    requires Walk(front).names == []
    ensures Walk(front + names) == Walk(front).(names := names)
  {
    if names == [] {
      assert front + names == front;
    } else {
      var init := names[..|names| - 1];
      WalkDown(front, init);
      assert (front + names)[..|front + names| - 1] == front + init;
      assert names == init + [names[|names| - 1]];
    }
  }

  // What the loop keeps of a relative path: going up a second time cancels the first.
  lemma {:induction false} ReducedRelative(parts: seq<string>)
    requires WellFormed(parts) && !Rooted(parts)
    ensures var pl := Walk(parts);
      Reduced(parts, false) == (if pl.ups % 2 == 1 then [".."] else []) + pl.names
  {
    if parts != [] {
      var init := parts[..|parts| - 1];
      ReducedRelative(init);
      WalkFits(init);
    }
  }

  // And of a rooted one: the root is kept until the walk climbs over it, then it is lost.
  lemma {:induction false} ReducedRooted(parts: seq<string>)
    requires WellFormed(parts) && Rooted(parts)
    ensures !ClimbsOverRoot(parts) ==> Reduced(parts, false) == [""] + Walk(parts).names
    ensures ClimbsOverRoot(parts) ==> "" !in Reduced(parts, false)
  {
    var init := parts[..|parts| - 1];
    WalkFits(init);
    if init == [] {
      assert parts[|parts| - 1] == "" && !ClimbsOverRoot(init) && !ClimbsOverRoot(parts);
      assert Walk(init) == HERE && Reduced(init, false) == [];
    } else {
      ReducedRooted(init);
    }
  }

  // Whether the path has a single component matters for "." alone.
  lemma {:induction false} SoleMatters(parts: seq<string>, sole: bool)
    requires "." !in parts
    ensures Reduced(parts, sole) == Reduced(parts, false)
  {
    if parts != [] {
      SoleMatters(parts[..|parts| - 1], sole);
    }
  }

  predicate Kept(parts: seq<string>) {
    if Rooted(parts) then !ClimbsOverRoot(parts) && Walk(parts).names != [] else Walk(parts).ups <= 1
  }

  // The list the loop leaves leads to the same place exactly under that condition.
  lemma ReducedWalksIff(parts: seq<string>)
    requires WellFormed(parts)
    ensures var kept := Reduced(parts, false);
      Walk(if kept == [""] then [] else kept) == Walk(parts) <==> Kept(parts)
  {
    var pl, kept := Walk(parts), Reduced(parts, false);
    WalkFits(parts);
    if !Rooted(parts) {
      ReducedRelative(parts);
      var up := if pl.ups % 2 == 1 then [".."] else [];
      WalkUp(pl.ups % 2 == 1);
      WalkDown(up, pl.names);
    } else {
      ReducedRooted(parts);
      if ClimbsOverRoot(parts) {
        ReducedIsCanonical(parts, false);
        WalkFits(kept);
      } else {
        WalkRoot();
        WalkDown([""], pl.names);
      }
    }
  }

  lemma WalkUp(up: bool)
    ensures Walk(if up then [".."] else []) == Place(false, if up then 1 else 0, [])
  {
    assert [".."][..0] == [];
    assert Walk([]) == HERE;
  }

  lemma WalkRoot()
    ensures Walk([""]) == Place(true, 0, [])
  {
    assert [""][..0] == [];
    assert Walk([]) == HERE;
  }

  // Canonicalize leads to the same place if and only if the path is relative and climbs at most
  // one level above where it starts, or is absolute, never asks for the parent of the root and
  // does not end up at the root itself.
  lemma CanonicalizeKeepsPlaceIff(path: string)
    ensures Meaning(CanonicalOf(path)) == Meaning(path) <==> Kept(Components(path))
  {
    var parts := Components(path);
    var kept := Reduced(parts, |parts| == 1);
    ComponentsWellFormed(path);
    ReducedIsCanonical(parts, |parts| == 1);
    SplitAfterJoin(kept);
    if parts == ["."] {
      WalkDot();
      assert kept == ["."];
    } else {
      if |parts| == 1 {
        assert "." !in parts;
        SoleMatters(parts, true);
      }
      ReducedWalksIff(parts);
    }
  }

  lemma WalkDot()
    ensures Walk(["."]) == HERE && Reduced(["."], true) == ["."]
  {
    assert ["."][..0] == [];
    assert Walk([]) == HERE;
  }

  // Two paths that lead elsewhere afterwards: the root becomes the current directory, and two
  // levels up become none.
  lemma PlacesLost()
    ensures CanonicalOf("/") == "" && Meaning("/") == Place(true, 0, []) && Meaning("") == HERE
    ensures CanonicalOf("../..") == "" && Meaning("../..") == Place(false, 2, [])
  {
    assert Components("") == [] && Walk([]) == HERE;
    var root := "/";
    assert root[1..] == "" && Names(root) == [] && Components(root) == [""];
    WalkRoot();
    assert [""][..0] == [] && Reduced([], true) == [] && Reduced([""], true) == [""];
    TwoUp();
  }

  lemma TwoUp()
    ensures CanonicalOf("../..") == "" && Meaning("../..") == Place(false, 2, [])
  {
    var up: string, both := "..", ["..", ".."];
    NamesStep(up, up);
    assert Components("../..") == both by { assert up + [SEP] + up == "../.."; }
    WalkUp(true);
    assert both[..1] == [up];
    assert Reduced([up], false) == [up] by { assert [up][..0] == []; }
    assert Reduced(both, false) == [];
  }
}
