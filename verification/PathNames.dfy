/**
  The text operations on paths, seen through the components they keep: native form changes none,
  and Path::Combine puts those of its arguments one after the other.
*/
module PathNames {
  import opened PathText
  import opened PathCanonical

  lemma {:induction false} NamesAppend(a: string, b: string)
    ensures Names(a + [SEP] + b) == Names(a) + Names(b)
    decreases |a|
  {
    var s := a + [SEP] + b;
    if a == "" {
      assert s[1..] == b;
    } else if a[0] == SEP {
      assert s[1..] == a[1..] + [SEP] + b;
      NamesAppend(a[1..], b);
    } else {
      var name, rest := SplitName(a);
      assert s == name + (rest + [SEP] + b);
      NameFirst(name, rest + [SEP] + b);
      NameFirst(name, rest);
      NamesAppend(rest, b);
    }
  }

  // A path that does not start with a separator starts with a name.
  lemma SplitName(s: string) returns (name: string, rest: string)
    requires s != "" && s[0] != SEP
    ensures s == name + rest && IsName(name) && (rest == "" || rest[0] == SEP) && |rest| < |s|
  {
    var n := NameLength(s);
    name, rest := s[..n], s[n..];
  }

  lemma NameFirst(name: string, rest: string)
    requires IsName(name) && (rest == "" || rest[0] == SEP)
    ensures Names(name + rest) == [name] + Names(rest)
  {
    NameLengthIs(name, rest);
    assert name[0] in name;
    assert (name + rest)[..|name|] == name && (name + rest)[|name|..] == rest;
  }

  lemma {:induction false} TrimKeepsNames(s: string)
    ensures Names(TrimEnd(s)) == Names(s)
    decreases |s|
  {
    if EndsInSep(s) {
      var t := s[..|s| - 1];
      assert s == t + [SEP] + "";
      NamesAppend(t, "");
      TrimKeepsNames(t);
    }
  }

  lemma CollapseOfName(name: string, afterSep: bool)
    requires SepFree(name)
    ensures Collapse(name, afterSep) == name
  {
    forall i | 0 < i < |name| ensures name[i] != SEP { assert name[i] in name; }
    assert name != "" ==> name[0] in name;
    CollapseKeeps(name, afterSep);
  }

  lemma {:induction false} CollapseKeepsNames(s: string, afterSep: bool)
    ensures Names(Collapse(s, afterSep)) == Names(s)
    decreases |s|
  {
    if s != "" {
      if s[0] == SEP {
        CollapseKeepsNames(s[1..], true);
        assert ([SEP] + Collapse(s[1..], true))[1..] == Collapse(s[1..], true);
      } else {
        var name, rest := SplitName(s);
        CollapseAppend(name, rest, afterSep);
        CollapseOfName(name, afterSep);
        assert name[|name| - 1] in name;
        CollapseKeepsNames(rest, false);
        NameFirst(name, Collapse(rest, false));
        NameFirst(name, rest);
      }
    }
  }

  // Native form has the same components, so it leads to the same place.
  lemma NativeKeepsComponents(s: string)
    ensures Components(NativeOf(s)) == Components(s)
  {
    var c := Collapse(s, false);
    CollapseKeepsNames(s, false);
    if |c| > 1 && EndsInSep(c) {
      var t := c[..|c| - 1];
      assert c == t + [SEP] + "";
      NamesAppend(t, "");
    }
  }

  // Combining puts the names one after the other.
  lemma CombineConcatenates(base: string, next: string)
    ensures Names(CombineOf(base, next)) == Names(base) + Names(next)
  {
    var b, n := TrimEnd(Collapse(base, false)), Collapse(next, true);
    TrimKeepsNames(b + [SEP] + n);
    NamesAppend(b, n);
    TrimKeepsNames(Collapse(base, false));
    CollapseKeepsNames(base, false);
    CollapseKeepsNames(next, true);
  }

  // And leaves neither adjacent nor trailing separators.
  lemma CombineIsClean(base: string, next: string)
    ensures !EndsInSep(CombineOf(base, next)) && NoDoubleSep(CombineOf(base, next))
  {
    CollapseHasNoDouble(base, false);
    CollapseHasNoDouble(next, true);
  }

  lemma {:induction false} NoNames(s: string)
    ensures Names(s) == [] <==> TrimEnd(s) == ""
    decreases |s|
  {
    TrimKeepsNames(s);
    var t := TrimEnd(s);
    if t != "" {
      LastNameStays(t);
    }
  }

  lemma {:induction false} LastNameStays(t: string)
    requires t != "" && !EndsInSep(t)
    ensures Names(t) != []
    decreases |t|
  {
    if t[0] == SEP {
      LastNameStays(t[1..]);
    }
  }

  // The result is rooted exactly when the base is, or has no names at all and next has one.
  lemma CombineIsRootedIff(base: string, next: string)
    ensures var r := CombineOf(base, next);
      (r != "" && r[0] == SEP) <==>
      if Names(base) == [] then Names(next) != [] else base[0] == SEP
  {
    var c := Collapse(base, false);
    var b, n := TrimEnd(c), Collapse(next, true);
    var s := b + [SEP] + n;
    CollapseKeepsNames(base, false);
    NoNames(c);
    CombineConcatenates(base, next);
    NoNames(s);
    if b != "" {
      assert TrimEnd(s) != "" by { NamesAppend(b, n); NoNames(b); }
      assert c[0] == base[0];
    } else {
      NamesAppend(b, n);
      CollapseKeepsNames(next, true);
    }
  }
}
