/**
  Path::SplitNativePath, JoinString and Path::Canonicalize on POSIX.
*/
module PathCanonical {
  import opened PathText

  // ------------------------------------------------------------------ split and join

  predicate SepFree(s: string) { SEP !in s }
  predicate IsName(s: string) { s != "" && SepFree(s) }

  // The length of the leading stretch without a separator.
  function NameLength(s: string): (n: nat)
    ensures n <= |s| && SepFree(s[..n]) && (n < |s| ==> s[n] == SEP)
  {
    if s == "" || s[0] == SEP then 0
    else
      assert s[..1 + NameLength(s[1..])] == [s[0]] + s[1..][..NameLength(s[1..])];
      1 + NameLength(s[1..])
  }

  // The maximal stretches without a separator.
  function Names(s: string): (names: seq<string>)
    decreases |s|
  {
    if s == "" then []
    else if s[0] == SEP then Names(s[1..])
    else [s[..NameLength(s)]] + Names(s[NameLength(s)..])
  }

  // The components of a path: its names, after an empty one if it starts at the root.
  function Components(path: string): (parts: seq<string>) {
    (if path != "" && path[0] == SEP then [""] else []) + Names(path)
  }

  function JoinOfParts(parts: seq<string>): (s: string) {
    if parts == [] then "" else if |parts| == 1 then parts[0] else parts[0] + [SEP] + JoinOfParts(parts[1..])
  }

  lemma {:induction false} NameLengthIs(name: string, rest: string)
    requires SepFree(name) && (rest == "" || rest[0] == SEP)
    ensures NameLength(name + rest) == |name|
  {
    if name == "" {
      assert name + rest == rest;
    } else {
      assert (name + rest)[1..] == name[1..] + rest;
      assert name[0] in name;
      NameLengthIs(name[1..], rest);
    }
  }

  lemma NamesStep(name: string, rest: string)
    requires IsName(name)
    ensures Names(name) == [name]
    ensures Names(name + [SEP] + rest) == [name] + Names(rest)
  {
    NameLengthIs(name, "");
    assert name + "" == name;
    assert name[0] in name;
    var s := name + ([SEP] + rest);
    assert s == name + [SEP] + rest;
    NameLengthIs(name, [SEP] + rest);
    assert s[..|name|] == name && s[|name|..] == [SEP] + rest && ([SEP] + rest)[1..] == rest;
  }

  // Lists as splitting makes them: names, the first possibly empty.
  predicate WellFormed(parts: seq<string>) {
    forall i :: 0 <= i < |parts| ==> SepFree(parts[i]) && (i > 0 ==> parts[i] != "")
  }

  lemma {:induction false} NamesAreNames(s: string)
    ensures forall i :: 0 <= i < |Names(s)| ==> IsName(Names(s)[i])
    decreases |s|
  {
    if s != "" {
      if s[0] == SEP {
        NamesAreNames(s[1..]);
      } else {
        NamesAreNames(s[NameLength(s)..]);
      }
    }
  }

  lemma ComponentsWellFormed(path: string)
    ensures WellFormed(Components(path))
  {
    NamesAreNames(path);
  }

  lemma {:induction false} NamesOfJoin(parts: seq<string>)
    requires forall i :: 0 <= i < |parts| ==> IsName(parts[i])
    ensures Names(JoinOfParts(parts)) == parts
  {
    if parts != [] {
      NamesStep(parts[0], JoinOfParts(parts[1..]));
      NamesOfJoin(parts[1..]);
    }
  }

  // Splitting undoes joining on every well-formed list but the root alone, which joins to the
  // empty path.
  lemma SplitAfterJoin(parts: seq<string>)
    requires WellFormed(parts)
    ensures Components(JoinOfParts(parts)) == if parts == [""] then [] else parts
  {
    if parts != [] && parts[0] == "" {
      if |parts| > 1 {
        var rest := JoinOfParts(parts[1..]);
        assert JoinOfParts(parts) == [SEP] + rest && ([SEP] + rest)[1..] == rest;
        NamesOfJoin(parts[1..]);
      }
    } else if parts != [] {
      assert IsName(parts[0]) && parts[0][0] in parts[0];
      assert JoinOfParts(parts)[0] == parts[0][0];
      NamesOfJoin(parts);
    }
  }

  // One separator found at pos, the stretch since start being free of them.
  lemma NamesFrom(path: string, start: nat, pos: nat)
    requires start <= pos < |path| && path[pos] == SEP && SepFree(path[start..pos])
    ensures Names(path[start..]) == (if pos != start then [path[start..pos]] else []) + Names(path[pos + 1..])
  {
    var name, rest := path[start..pos], path[pos + 1..];
    assert path[start..] == name + [SEP] + rest;
    if pos != start {
      NamesStep(name, rest);
    } else {
      assert path[start..][1..] == rest;
    }
  }

  // What is still to come of the components when those before start have been found.
  function ComponentsFrom(path: string, start: nat, pos: nat): (parts: seq<string>)
    requires start <= pos <= |path|
  {
    if pos == 0 then Components(path) else Names(path[start..])
  }

  lemma PassSeparator(path: string, start: nat, pos: nat, parts: seq<string>)
    requires start <= pos < |path| && path[pos] == SEP && SepFree(path[start..pos])
    ensures (if pos != start || pos == 0 then parts + [path[start..pos]] else parts)
            + ComponentsFrom(path, pos + 1, pos + 1)
            == parts + ComponentsFrom(path, start, pos)
  {
    NamesFrom(path, start, pos);
    if pos == 0 {
      assert path[0..] == path && path[0..0] == "";
    }
  }

  lemma PassOther(path: string, start: nat, pos: nat)
    requires start <= pos < |path| && path[pos] != SEP && SepFree(path[start..pos])
    ensures SepFree(path[start..pos + 1])
    ensures ComponentsFrom(path, start, pos) == ComponentsFrom(path, start, pos + 1)
  {
    assert path[start..pos + 1] == path[start..pos] + [path[pos]];
    if pos == 0 {
      assert path[0..] == path;
    }
  }

  method SplitNativePath(path: string) returns (parts: seq<string>)
    ensures parts == Components(path)
  {
    parts := [];
    var start, pos := 0, 0;
    while pos < |path|
      invariant 0 <= start <= pos <= |path| && SepFree(path[start..pos])
      invariant parts + ComponentsFrom(path, start, pos) == Components(path)
    {
      if path[pos] != SEP {
        PassOther(path, start, pos);
        pos := pos + 1;
        continue;
      }
      PassSeparator(path, start, pos, parts);
      if pos != start || pos == 0 {
        parts := parts + [path[start..pos]];
      }
      pos := pos + 1;
      start := pos;
    }
    if start != pos {
      NamesStep(path[start..], "");
      parts := parts + [path[start..]];
    }
  }

  lemma {:induction false} JoinLast(parts: seq<string>, last: string)
    requires parts != []
    ensures JoinOfParts(parts + [last]) == JoinOfParts(parts) + [SEP] + last
  {
    assert (parts + [last])[1..] == parts[1..] + [last];
    if |parts| > 1 {
      JoinLast(parts[1..], last);
    }
  }

  method JoinString(parts: seq<string>) returns (ret: string)
    ensures ret == JoinOfParts(parts)
  {
    ret := "";
    for i := 0 to |parts|
      invariant ret == JoinOfParts(parts[..i])
    {
      assert parts[..i + 1] == parts[..i] + [parts[i]];
      if i != 0 {
        JoinLast(parts[..i], parts[i]);
        ret := ret + [SEP];
      }
      ret := ret + parts[i];
    }
    assert parts[..|parts|] == parts;
  }

  // ------------------------------------------------------------------ canonicalize

  // One round of the loop; sole: the path has just this component.
  function Reduce(stack: seq<string>, part: string, sole: bool): (r: seq<string>) {
    if part == "." then (if sole then stack + [part] else stack)
    else if part == ".." && stack != [] then stack[..|stack| - 1]
    else stack + [part]
  }

  function Reduced(parts: seq<string>, sole: bool): (r: seq<string>) {
    if parts == [] then [] else Reduce(Reduced(parts[..|parts| - 1], sole), parts[|parts| - 1], sole)
  }

  function CanonicalOf(path: string): (r: string) {
    var parts := Components(path);
    JoinOfParts(Reduced(parts, |parts| == 1))
  }

  method Canonicalize(path: string) returns (ret: string)
    ensures ret == CanonicalOf(path)
  {
    var components := SplitNativePath(path);
    var kept: seq<string> := [];
    for i := 0 to |components|
      invariant kept == Reduced(components[..i], |components| == 1)
    {
      var component := components[i];
      assert components[..i + 1][..i] == components[..i];
      if component == "." {
        if |components| == 1 {
          kept := kept + [component];
        }
      } else if component == ".." {
        if kept != [] {
          kept := kept[..|kept| - 1];
        } else {
          kept := kept + [component];
        }
      } else {
        kept := kept + [component];
      }
    }
    assert components[..|components|] == components;
    ret := JoinString(kept);
  }

  // No "." but alone, ".." only in front.
  predicate Canonical(parts: seq<string>) {
    && WellFormed(parts)
    && (forall i :: 0 <= i < |parts| && parts[i] == "." ==> |parts| == 1)
    && (forall i :: 0 < i < |parts| ==> parts[i] != "..")
  }

  lemma {:induction false} ReducedIsCanonical(parts: seq<string>, sole: bool)
    requires WellFormed(parts) && (sole ==> |parts| <= 1)
    ensures Canonical(Reduced(parts, sole)) && (!sole ==> "." !in Reduced(parts, sole))
  {
    if parts != [] {
      var init := parts[..|parts| - 1];
      ReducedIsCanonical(init, sole);
      assert init == [] ==> Reduced(init, sole) == [];
      ReduceKeepsCanonical(Reduced(init, sole), parts[|parts| - 1], sole);
    }
  }

  lemma ReduceKeepsCanonical(stack: seq<string>, part: string, sole: bool)
    requires Canonical(stack) && (!sole ==> "." !in stack) && SepFree(part)
    requires part == "" || sole ==> stack == []
    ensures Canonical(Reduce(stack, part, sole)) && (!sole ==> "." !in Reduce(stack, part, sole))
  {
  }

  lemma {:induction false} ReducedKeepsCanonical(parts: seq<string>, sole: bool)
    requires Canonical(parts) && (|parts| == 1 && parts[0] == "." ==> sole)
    ensures Reduced(parts, sole) == parts
  {
    if parts != [] {
      var init, last := parts[..|parts| - 1], parts[|parts| - 1];
      InitIsCanonical(parts);
      ReducedKeepsCanonical(init, sole);
      assert last == "." ==> sole;
      assert last == ".." ==> init == [];
      assert Reduce(init, last, sole) == init + [last] == parts;
    }
  }

  lemma InitIsCanonical(parts: seq<string>)
    requires Canonical(parts) && parts != []
    ensures Canonical(parts[..|parts| - 1]) && "." !in parts[..|parts| - 1]
  {
    var init := parts[..|parts| - 1];
    forall i | 0 <= i < |init| ensures init[i] != "." {
      assert init[i] == parts[i];
    }
  }

  // Every result is the join of a canonical list, and a second pass changes nothing.
  lemma CanonicalizeIdempotent(path: string)
    ensures Canonical(Components(CanonicalOf(path)))
    ensures CanonicalOf(CanonicalOf(path)) == CanonicalOf(path)
  {
    var parts := Components(path);
    ComponentsWellFormed(path);
    var kept := Reduced(parts, |parts| == 1);
    ReducedIsCanonical(parts, |parts| == 1);
    SplitAfterJoin(kept);
    var again := Components(CanonicalOf(path));
    ReducedKeepsCanonical(again, |again| == 1);
  }
}
