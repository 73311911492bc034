/**
  Paths as text on POSIX: appending with runs of separators collapsed, native form, Path::Combine,
  and the C-string join that is meant to match it.
*/
module PathText {
  const SEP: char := '/'

  // ------------------------------------------------------------------ collapsing and trimming

  // Every run of separators becomes one, and vanishes if a separator already stands before.
  function Collapse(s: string, afterSep: bool): (r: string) {
    if s == "" then ""
    else if s[0] != SEP then [s[0]] + Collapse(s[1..], false)
    else if afterSep then Collapse(s[1..], true)
    else [SEP] + Collapse(s[1..], true)
  }

  predicate EndsInSep(s: string) { s != "" && s[|s| - 1] == SEP }

  // Whether a separator stands before what follows s.
  predicate SepAfter(s: string, before: bool) { if s == "" then before else EndsInSep(s) }

  function TrimEnd(s: string): (r: string)
    ensures !EndsInSep(r) && r <= s
    decreases |s|
  {
    if EndsInSep(s) then TrimEnd(s[..|s| - 1]) else s
  }

  function TrimStart(s: string): (r: string)
    ensures r == "" || r[0] != SEP
  {
    if s != "" && s[0] == SEP then TrimStart(s[1..]) else s
  }

  ghost predicate NoDoubleSep(s: string) {
    forall i :: 0 < i < |s| ==> !(s[i - 1] == SEP && s[i] == SEP)
  }

  lemma {:induction false} CollapseLast(s: string, afterSep: bool)
    ensures SepAfter(Collapse(s, afterSep), afterSep) == SepAfter(s, afterSep)
  {
    if s != "" {
      CollapseLast(s[1..], s[0] == SEP);
    }
  }

  lemma {:induction false} CollapseAppend(a: string, b: string, afterSep: bool)
    ensures Collapse(a + b, afterSep) == Collapse(a, afterSep) + Collapse(b, SepAfter(a, afterSep))
  {
    if a == "" {
      assert a + b == b;
    } else {
      assert (a + b)[1..] == a[1..] + b;
      CollapseAppend(a[1..], b, a[0] == SEP);
    }
  }

  // Collapsing leaves no two adjacent separators, and changes nothing where there were none.
  lemma {:induction false} CollapseHasNoDouble(s: string, afterSep: bool)
    ensures NoDoubleSep(Collapse(s, afterSep))
    ensures afterSep && Collapse(s, afterSep) != "" ==> Collapse(s, afterSep)[0] != SEP
  {
    if s != "" {
      CollapseHasNoDouble(s[1..], s[0] == SEP);
    }
  }

  lemma {:induction false} CollapseKeeps(s: string, afterSep: bool)
    requires NoDoubleSep(s) && (afterSep && s != "" ==> s[0] != SEP)
    ensures Collapse(s, afterSep) == s
  {
    if s != "" {
      CollapseKeeps(s[1..], s[0] == SEP);
    }
  }

  lemma JoinHasNoDouble(dst: string, src: string)
    requires NoDoubleSep(dst)
    ensures NoDoubleSep(dst + Collapse(src, EndsInSep(dst)))
  {
    CollapseHasNoDouble(src, EndsInSep(dst));
  }

  // PathAppendString on dst.  A destination without adjacent separators stays without.
  method PathAppendString(dst: string, src: string) returns (ret: string)
    ensures ret == dst + Collapse(src, EndsInSep(dst))
    ensures NoDoubleSep(dst) ==> NoDoubleSep(ret)
  {
    ret := dst;
    var lastSeparator := ret != "" && ret[|ret| - 1] == SEP;
    for index := 0 to |src|
      invariant ret == dst + Collapse(src[..index], EndsInSep(dst))
      invariant lastSeparator == SepAfter(src[..index], EndsInSep(dst))
    {
      var ch := src[index];
      assert src[..index + 1] == src[..index] + [ch];
      CollapseAppend(src[..index], [ch], EndsInSep(dst));
      if ch == SEP {
        if lastSeparator {
          continue;
        }
        lastSeparator := true;
        ret := ret + [SEP];
      } else {
        lastSeparator := false;
        ret := ret + [ch];
      }
    }
    assert src[..|src|] == src;
    if NoDoubleSep(dst) {
      JoinHasNoDouble(dst, src);
    }
  }

  // ------------------------------------------------------------------ native form

  // One trailing separator goes, unless it is all there is.
  function NativeOf(s: string): (r: string) {
    var c := Collapse(s, false);
    if |c| > 1 && EndsInSep(c) then c[..|c| - 1] else c
  }

  // Without adjacent separators, at most one is trailing.
  lemma OneTrailing(c: string)
    requires NoDoubleSep(c) && |c| > 1 && EndsInSep(c)
    ensures !EndsInSep(c[..|c| - 1])
  {
  }

  // The trimming loop of ToNativePath takes at most one character and never the last one.
  method TrimNative(c: string) returns (ret: string)
    requires NoDoubleSep(c) && |c| > 1
    ensures ret == if EndsInSep(c) then c[..|c| - 1] else c
  {
    ret := c;
    while ret[|ret| - 1] == SEP
      invariant ret == c || (EndsInSep(c) && ret == c[..|c| - 1] && !EndsInSep(ret))
      decreases |ret|
    {
      OneTrailing(c);
      ret := ret[..|ret| - 1];
    }
  }

  method ToNativePath(path: string) returns (ret: string)
    ensures ret == NativeOf(path)
  {
    ret := PathAppendString("", path);
    if |ret| > 1 {
      ret := TrimNative(ret);
    }
  }

  // The native form has no adjacent separators, ends in one only as the root, is empty only for
  // the empty path, and is its own native form.
  lemma NativeIsNormal(s: string)
    ensures NoDoubleSep(NativeOf(s))
    ensures EndsInSep(NativeOf(s)) ==> NativeOf(s) == [SEP]
    ensures NativeOf(s) == "" <==> s == ""
    ensures NativeOf(NativeOf(s)) == NativeOf(s)
  {
    CollapseHasNoDouble(s, false);
    CollapseKeeps(NativeOf(s), false);
  }

  // ------------------------------------------------------------------ Path::Combine

  function CombineOf(base: string, next: string): (r: string) {
    TrimEnd(TrimEnd(Collapse(base, false)) + [SEP] + Collapse(next, true))
  }

  method PopSeparators(s: string) returns (ret: string)
    ensures ret == TrimEnd(s)
  {
    ret := s;
    while ret != "" && ret[|ret| - 1] == SEP
      invariant TrimEnd(ret) == TrimEnd(s)
      decreases |ret|
    {
      ret := ret[..|ret| - 1];
    }
  }

  method Combine(base: string, next: string) returns (ret: string)
    ensures ret == CombineOf(base, next)
  {
    ret := PathAppendString("", base);
    assert ret == Collapse(base, false);
    ret := PopSeparators(ret);
    ret := ret + [SEP];
    assert EndsInSep(ret);
    ret := PathAppendString(ret, next);
    ret := PopSeparators(ret);
  }

  // ------------------------------------------------------------------ pcsx2_path_join

  predicate IsSlash(c: char) { c == '/' || c == '\\' }

  function TrimSlashesEnd(s: string): (r: string)
    ensures r <= s && (r != "" ==> !IsSlash(r[|r| - 1]))
    decreases |s|
  {
    if s != "" && IsSlash(s[|s| - 1]) then TrimSlashesEnd(s[..|s| - 1]) else s
  }

  function TrimSlashesStart(s: string): (r: string)
    ensures r == "" || !IsSlash(r[0])
  {
    if s != "" && IsSlash(s[0]) then TrimSlashesStart(s[1..]) else s
  }

  // What the join writes when the buffer is large enough.
  function JoinOf(base: string, next: string): (r: string) {
    var n := TrimSlashesStart(next);
    TrimSlashesEnd(base) + if n == "" then "" else [SEP] + n
  }

  // Runs collapsed and trailing separators removed.
  function Normalize(s: string): (r: string) { TrimEnd(Collapse(s, false)) }

  lemma {:induction false} TrimEndOfCollapse(s: string, afterSep: bool)
    ensures TrimEnd(Collapse(s, afterSep)) == Collapse(TrimEnd(s), afterSep)
    decreases |s|
  {
    if EndsInSep(s) {
      var t := s[..|s| - 1];
      assert s == t + [SEP];
      CollapseAppend(t, [SEP], afterSep);
      TrimEndOfCollapse(t, afterSep);
      var c := Collapse(t, afterSep);
      if !SepAfter(t, afterSep) {
        assert Collapse([SEP], false) == [SEP];
        assert (c + [SEP])[..|c|] == c;
      } else {
        assert c + "" == c;
      }
    } else {
      CollapseLast(s, afterSep);
    }
  }

  lemma {:induction false} TrimStartUnderCollapse(s: string)
    ensures Collapse(s, true) == Collapse(TrimStart(s), true)
  {
    if s != "" && s[0] == SEP {
      TrimStartUnderCollapse(s[1..]);
    }
  }

  // The two joins agree up to separator runs and trailing separators when the slashes the C join
  // drops are separators.
  lemma CombineIsJoin(base: string, next: string)
    requires TrimSlashesEnd(base) == TrimEnd(base) && TrimSlashesStart(next) == TrimStart(next)
    ensures CombineOf(base, next) == Normalize(JoinOf(base, next))
  {
    var b, n := TrimEnd(base), TrimStart(next);
    TrimEndOfCollapse(base, false);
    TrimStartUnderCollapse(next);
    if n == "" {
      CollapseLast(b, false);
      TrimOneSep(Collapse(b, false));
      assert b + "" == b;
    } else {
      CollapseAroundSep(b, n);
    }
  }

  lemma TrimOneSep(c: string)
    requires !EndsInSep(c)
    ensures TrimEnd(c + [SEP] + "") == c == TrimEnd(c)
  {
    assert c + [SEP] + "" == c + [SEP] && (c + [SEP])[..|c|] == c;
  }

  lemma CollapseAroundSep(b: string, n: string)
    requires !EndsInSep(b)
    ensures Collapse(b + ([SEP] + n), false) == Collapse(b, false) + [SEP] + Collapse(n, true)
  {
    CollapseAppend(b, [SEP] + n, false);
    assert ([SEP] + n)[1..] == n;
  }

  // ------------------------------------------------------------------ exactly when they agree

  function Backslashes(s: string): (n: nat) {
    if s == "" then 0 else (if s[0] == '\\' then 1 else 0) + Backslashes(s[1..])
  }

  lemma {:induction false} BackslashesAppend(a: string, b: string)
    ensures Backslashes(a + b) == Backslashes(a) + Backslashes(b)
  {
    if a == "" {
      assert a + b == b;
    } else {
      assert (a + b)[1..] == a[1..] + b;
      BackslashesAppend(a[1..], b);
    }
  }

  lemma BackslashesLast(s: string)
    requires s != ""
    ensures Backslashes(s) == Backslashes(s[..|s| - 1]) + if s[|s| - 1] == '\\' then 1 else 0
  {
    var t, last := s[..|s| - 1], [s[|s| - 1]];
    assert s == t + last;
    BackslashesAppend(t, last);
    assert Backslashes(last[1..]) == 0;
  }

  lemma {:induction false} CollapseKeepsBackslashes(s: string, afterSep: bool)
    ensures Backslashes(Collapse(s, afterSep)) == Backslashes(s)
  {
    if s != "" {
      CollapseKeepsBackslashes(s[1..], s[0] == SEP);
    }
  }

  lemma {:induction false} TrimKeepsBackslashes(s: string)
    ensures Backslashes(TrimEnd(s)) == Backslashes(s)
    decreases |s|
  {
    if EndsInSep(s) {
      BackslashesLast(s);
      TrimKeepsBackslashes(s[..|s| - 1]);
    }
  }

  // Slashes are dropped from the end of s: some backslash among them, or separators alone.
  lemma {:induction false} DroppedAtEnd(s: string)
    ensures Backslashes(TrimSlashesEnd(s)) <= Backslashes(s)
    ensures Backslashes(TrimSlashesEnd(s)) == Backslashes(s) ==> TrimSlashesEnd(s) == TrimEnd(s)
    decreases |s|
  {
    if s != "" && IsSlash(s[|s| - 1]) {
      BackslashesLast(s);
      DroppedAtEnd(s[..|s| - 1]);
    }
  }

  lemma {:induction false} DroppedAtStart(s: string)
    ensures Backslashes(TrimSlashesStart(s)) <= Backslashes(s)
    ensures Backslashes(TrimSlashesStart(s)) == Backslashes(s) ==> TrimSlashesStart(s) == TrimStart(s)
  {
    if s != "" && IsSlash(s[0]) {
      DroppedAtStart(s[1..]);
    }
  }

  lemma CombineBackslashes(base: string, next: string)
    ensures Backslashes(CombineOf(base, next)) == Backslashes(base) + Backslashes(next)
  {
    var b, n := TrimEnd(Collapse(base, false)), Collapse(next, true);
    TrimKeepsBackslashes(b + [SEP] + n);
    BackslashesAppend(b + [SEP], n);
    BackslashesAppend(b, [SEP]);
    TrimKeepsBackslashes(Collapse(base, false));
    CollapseKeepsBackslashes(base, false);
    CollapseKeepsBackslashes(next, true);
  }

  lemma JoinBackslashes(base: string, next: string)
    ensures Backslashes(Normalize(JoinOf(base, next)))
            == Backslashes(TrimSlashesEnd(base)) + Backslashes(TrimSlashesStart(next))
  {
    var j, n := JoinOf(base, next), TrimSlashesStart(next);
    TrimKeepsBackslashes(Collapse(j, false));
    CollapseKeepsBackslashes(j, false);
    BackslashesAppend(TrimSlashesEnd(base), if n == "" then "" else [SEP] + n);
    assert n != "" ==> ([SEP] + n)[1..] == n;
  }

  // Path::Combine and the C join agree, up to separator runs and trailing separators, exactly
  // when no backslash stands among the slashes at the end of base or at the start of next.
  lemma CombineIsJoinIff(base: string, next: string)
    ensures CombineOf(base, next) == Normalize(JoinOf(base, next)) <==>
            TrimSlashesEnd(base) == TrimEnd(base) && TrimSlashesStart(next) == TrimStart(next)
  {
    if TrimSlashesEnd(base) == TrimEnd(base) && TrimSlashesStart(next) == TrimStart(next) {
      CombineIsJoin(base, next);
    } else {
      DroppedAtEnd(base);
      DroppedAtStart(next);
      CombineBackslashes(base, next);
      JoinBackslashes(base, next);
    }
  }

  lemma NoDoubleAppend(a: string, c: string)
    requires !EndsInSep(a) || c == "" || c[0] != SEP
    ensures NoDoubleSep(a + c) <==> NoDoubleSep(a) && NoDoubleSep(c)
  {
    var j := a + c;
    if NoDoubleSep(j) {
      forall i | 0 < i < |a| ensures !(a[i - 1] == SEP && a[i] == SEP) {
        assert j[i - 1] == a[i - 1] && j[i] == a[i];
      }
      forall i | 0 < i < |c| ensures !(c[i - 1] == SEP && c[i] == SEP) {
        assert j[|a| + i - 1] == c[i - 1] && j[|a| + i] == c[i];
      }
    }
  }

  // Without a backslash among the dropped slashes the join is clean, and so equals Combine as it
  // stands, exactly when its two parts are.
  lemma JoinIsCleanIff(base: string, next: string)
    requires TrimSlashesEnd(base) == TrimEnd(base) && TrimSlashesStart(next) == TrimStart(next)
    ensures var b, n, j := TrimEnd(base), TrimStart(next), JoinOf(base, next);
      NoDoubleSep(j) && !EndsInSep(j) <==> NoDoubleSep(b) && NoDoubleSep(n) && !EndsInSep(n)
  {
    var b, n := TrimEnd(base), TrimStart(next);
    if n == "" {
      assert b + "" == b;
    } else {
      NoDoubleAppend(b, [SEP] + n);
      NoDoubleSepped(n);
    }
  }

  lemma NoDoubleSepped(n: string)
    requires n != "" && n[0] != SEP
    ensures NoDoubleSep([SEP] + n) <==> NoDoubleSep(n)
  {
    NoDoubleAppend([SEP], n);
  }

  lemma NormalizeKeepsIff(s: string)
    ensures Normalize(s) == s <==> NoDoubleSep(s) && !EndsInSep(s)
  {
    CollapseHasNoDouble(s, false);
    if NoDoubleSep(s) {
      CollapseKeeps(s, false);
    }
  }

  // The C join writes what Path::Combine returns, to the character, exactly when it drops no
  // backslash, base has no separator run before its trailing one, and next none after its leading
  // one and no trailing separator.
  lemma JoinIsCombineIff(base: string, next: string)
    ensures var b, n := TrimEnd(base), TrimStart(next);
      JoinOf(base, next) == CombineOf(base, next) <==>
      && TrimSlashesEnd(base) == b && TrimSlashesStart(next) == n
      && NoDoubleSep(b) && NoDoubleSep(n) && !EndsInSep(n)
  {
    if TrimSlashesEnd(base) == TrimEnd(base) && TrimSlashesStart(next) == TrimStart(next) {
      CombineIsJoin(base, next);
      JoinIsCleanIff(base, next);
      NormalizeKeepsIff(JoinOf(base, next));
    } else {
      DroppedAtEnd(base);
      DroppedAtStart(next);
      CombineBackslashes(base, next);
      JoinBackslashes(base, next);
      CollapseKeepsBackslashes(JoinOf(base, next), false);
      TrimKeepsBackslashes(Collapse(JoinOf(base, next), false));
    }
  }

  // A backslash at the end of base: Combine keeps it, the join drops it.
  lemma BackslashIsDropped()
    ensures CombineOf("a\\", "b") == "a\\/b" && JoinOf("a\\", "b") == "a/b"
  {
    var base := "a\\";
    assert base[1..] == "\\" && base[..1] == "a";
    CollapseKeeps(base, false);
    CollapseKeeps("b", true);
    assert CombineOf(base, "b") == base + "/" + "b";
    assert TrimSlashesEnd(base[..1]) == "a";
    assert JoinOf(base, "b") == "a" + ("/" + "b");
  }

  // Two separators inside base: Combine collapses them, the join does not.
  lemma InnerRunIsKept()
    ensures CombineOf("a//b", "c") == "a/b/c" && JoinOf("a//b", "c") == "a//b/c"
  {
    var base := "a//b";
    assert base[1..] == "//b" && base[1..][1..] == "/b" && base[1..][1..][1..] == "b";
    assert Collapse("b", true) == "b";
    assert Collapse("/b", true) == "b";
    assert Collapse("//b", false) == "/b";
    assert Collapse(base, false) == "a/b";
    CollapseKeeps("c", true);
    assert CombineOf(base, "c") == "a/b" + "/" + "c";
    assert JoinOf(base, "c") == base + ("/" + "c");
  }

  // In particular they agree on all backslash-free inputs.
  lemma {:induction false} NoBackslashNoDifference(base: string, next: string)
    requires '\\' !in base && '\\' !in next
    ensures CombineOf(base, next) == Normalize(JoinOf(base, next))
  {
    SameTrims(base);
    SameTrims(next);
    CombineIsJoin(base, next);
  }

  lemma {:induction false} SameTrims(s: string)
    requires '\\' !in s
    ensures TrimSlashesEnd(s) == TrimEnd(s) && TrimSlashesStart(s) == TrimStart(s)
    decreases |s|
  {
    if s != "" {
      SameTrims(s[..|s| - 1]);
      SameTrims(s[1..]);
    }
  }

  // ------------------------------------------------------------------ the buffer

  datatype CString = Null | Text(text: string)
  function TextOf(c: CString): string { if c.Null? then "" else c.text }
  predicate NulFree(s: string) { '\0' !in s }

  // The buffer holds s, terminated.
  ghost predicate Holds(buffer: seq<char>, s: string) {
    |s| < |buffer| && buffer[..|s|] == s && buffer[|s|] == '\0' && NulFree(s)
  }

  // s as far as it fits in a buffer of this size with its terminator.
  function Fitting(s: string, size: nat): (r: string)
    requires size > 0
  {
    if |s| < size then s else s[..size - 1]
  }

  method Strlcat(dst: array<char>, src: string, size: nat, ghost have: string)
    requires 0 < size <= dst.Length && |have| < size && Holds(dst[..], have) && NulFree(src)
    modifies dst
    ensures Holds(dst[..], Fitting(have + src, size))
    ensures dst[size..] == old(dst[size..])
  {
    var length := 0;
    while dst[length] != '\0'
      invariant length <= |have|
      decreases |have| - length
    {
      assert dst[length] == dst[..][..|have|][length];
      length := length + 1;
    }
    var room := size - length - 1;
    var count := if |src| < room then |src| else room;
    for i := 0 to count
      invariant dst[..length + i] == have + src[..i]
      invariant dst[size..] == old(dst[size..])
    {
      dst[length + i] := src[i];
    }
    dst[length + count] := '\0';
    assert dst[..][..length + count] == have + src[..count];
    assert Fitting(have + src, size) == have + src[..count];
  }

  // Cutting after each part cuts the whole.
  lemma FittingInTwo(a: string, b: string, size: nat)
    requires size > 0
    ensures Fitting(Fitting(Fitting(a, size) + "/", size) + b, size) == Fitting(a + ([SEP] + b), size)
  {
    assert a + ([SEP] + b) == (a + [SEP]) + b;
    FittingTwice(a, "/", size);
    FittingTwice(a + "/", b, size);
  }

  lemma FittingTwice(a: string, b: string, size: nat)
    requires size > 0
    ensures Fitting(Fitting(a, size) + b, size) == Fitting(a + b, size)
  {
  }

  // Without its trailing slashes, how long a path is.
  method TrimmedLength(b: string) returns (n: nat)
    ensures n <= |b| && b[..n] == TrimSlashesEnd(b)
  {
    n := |b|;
    assert b[..n] == b;
    while n > 0 && (b[n - 1] == '/' || b[n - 1] == '\\')
      invariant n <= |b|
      invariant TrimSlashesEnd(b[..n]) == TrimSlashesEnd(b)
    {
      assert b[..n][..n - 1] == b[..n - 1];
      n := n - 1;
    }
  }

  // pcsx2_path_join: the join, cut to what fits; without a buffer nothing happens.
  method PathJoin(dst: array?<char>, size: nat, base: CString, next: CString)
    requires dst != null ==> size <= dst.Length
    requires NulFree(TextOf(base)) && NulFree(TextOf(next))
    modifies dst
    ensures dst != null && size > 0 ==>
      Holds(dst[..], Fitting(JoinOf(TextOf(base), TextOf(next)), size))
    ensures dst != null ==> dst[size..] == old(dst[size..])
  {
    if dst == null || size == 0 {
      return;
    }
    var b, rest := TextOf(base), TextOf(next);
    var n := TrimmedLength(b);
    while rest != "" && (rest[0] == '/' || rest[0] == '\\')
      invariant TrimSlashesStart(rest) == TrimSlashesStart(TextOf(next)) && NulFree(rest)
      decreases |rest|
    {
      rest := rest[1..];
    }
    ghost var left := b[..n];
    if n >= size {
      n := size - 1;
    }
    for i := 0 to n
      invariant dst[..i] == b[..i] && dst[size..] == old(dst[size..])
    {
      dst[i] := b[i];
    }
    dst[n] := '\0';
    assert dst[..][..n] == b[..n] == Fitting(left, size);
    if rest != "" {
      var have := b[..n];
      Strlcat(dst, "/", size, have);
      Strlcat(dst, rest, size, Fitting(have + "/", size));
      FittingInTwo(left, rest, size);
    } else {
      assert left + "" == left;
    }
  }
}
