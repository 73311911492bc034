/**
  `StringUtil::WildcardMatch`: an iterative matcher that only ever backtracks to the last star,
  proved equal to the recursive meaning of a mask.

  C strings are sequences without the terminator; `At` reads the terminator past the end.  The
  character comparison (exact, or by tolower) is the parameter `same`, of which the code needs
  only that the terminator equals no other character.
*/
module Wildcard {
  const NUL := 0 as char

  predicate IsCString(s: string) { NUL !in s }

  function At(s: string, i: nat): char
    requires i <= |s|
  {
    if i < |s| then s[i] else NUL
  }

  ghost predicate Comparison(same: (char, char) -> bool) {
    forall c :: c != NUL ==> !same(NUL, c)
  }

  predicate MatchChar(same: (char, char) -> bool, m: char, c: char) { m == '?' || same(m, c) }

  // What a mask means: '*' stands for any run of characters, any other mask character for one.
  predicate Glob(same: (char, char) -> bool, subject: string, mask: string)
    decreases |subject| + |mask|
  {
    if mask == "" then subject == ""
    else if mask[0] == '*' then
      Glob(same, subject, mask[1..]) || (subject != "" && Glob(same, subject[1..], mask))
    else
      subject != "" && MatchChar(same, mask[0], subject[0]) && Glob(same, subject[1..], mask[1..])
  }

  // The literal stretch mask[mp..mi] has been matched against subject[cp..cp + mi - mp].
  ghost predicate LiteralMatch(same: (char, char) -> bool, subject: string, cp: nat, mask: string, mp: nat, mi: nat) {
    && mp <= mi <= |mask| && cp + (mi - mp) <= |subject|
    && forall j :: mp <= j < mi ==> mask[j] != '*' && MatchChar(same, mask[j], subject[cp + (j - mp)])
  }

  // Matching after a matched literal stretch is the same as matching from its start.
  lemma {:induction false} LiteralStep(same: (char, char) -> bool, subject: string, cp: nat,
                                       mask: string, mp: nat, mi: nat)
    requires LiteralMatch(same, subject, cp, mask, mp, mi)
    ensures Glob(same, subject[cp..], mask[mp..]) == Glob(same, subject[cp + (mi - mp)..], mask[mi..])
    decreases mi - mp
  {
    if mp < mi {
      assert mask[mp] != '*' && MatchChar(same, mask[mp], subject[cp]);
      assert subject[cp..][1..] == subject[cp + 1..] && mask[mp..][1..] == mask[mp + 1..];
      LiteralStep(same, subject, cp + 1, mask, mp + 1, mi);
    }
  }

  // A mask matching some suffix of the subject is what a star in front of it matches.
  lemma {:induction false} StarUnfolds(same: (char, char) -> bool, subject: string, i: nat, rest: string)
    requires i <= |subject|
    ensures Glob(same, subject[i..], "*" + rest) <==> exists k :: i <= k <= |subject| && Glob(same, subject[k..], rest)
    decreases |subject| - i
  {
    var mask := "*" + rest;
    assert mask[1..] == rest;
    if i < |subject| {
      assert subject[i..][1..] == subject[i + 1..];
      StarUnfolds(same, subject, i + 1, rest);
      assert Glob(same, subject[i..], mask) <==> Glob(same, subject[i..], rest) || Glob(same, subject[i + 1..], mask);
    }
  }

  // A literal stretch in front of a star needs that many characters, and what follows it is
  // matched further right; the star absorbs the difference.
  lemma {:induction false} LiteralThenRest(same: (char, char) -> bool, subject: string, k: nat,
                                           mask: string, mp: nat, mi: nat)
    requires k <= |subject| && mp <= mi <= |mask|
    requires forall j :: mp <= j < mi ==> mask[j] != '*'
    requires Glob(same, subject[k..], mask[mp..])
    ensures k + (mi - mp) <= |subject|
    ensures Glob(same, subject[k + (mi - mp)..], mask[mi..])
    decreases mi - mp
  {
    if mp < mi {
      assert mask[mp..][0] != '*';
      assert subject[k..][1..] == subject[k + 1..] && mask[mp..][1..] == mask[mp + 1..];
      LiteralThenRest(same, subject, k + 1, mask, mp + 1, mi);
    }
  }

  lemma StarMovesLeft(same: (char, char) -> bool, subject: string, i: nat, j: nat, rest: string)
    requires i <= j <= |subject| && Glob(same, subject[j..], "*" + rest)
    ensures Glob(same, subject[i..], "*" + rest)
  {
    StarUnfolds(same, subject, j, rest);
    StarUnfolds(same, subject, i, rest);
  }

  // Reaching the next star, the earlier one need never be reconsidered.
  lemma CommitToNextStar(same: (char, char) -> bool, subject: string, cp: nat, mask: string, mp: nat, mi: nat)
    requires 0 < mp <= mi < |mask| && mask[mp - 1] == '*' && mask[mi] == '*'
    requires LiteralMatch(same, subject, cp, mask, mp, mi)
    ensures Glob(same, subject[cp..], mask[mp - 1..]) == Glob(same, subject[cp + (mi - mp)..], mask[mi..])
  {
    var si := cp + (mi - mp);
    assert mask[mp - 1..] == "*" + mask[mp..] && mask[mi..] == "*" + mask[mi + 1..];
    StarUnfolds(same, subject, cp, mask[mp..]);
    LiteralStep(same, subject, cp, mask, mp, mi);
    if Glob(same, subject[cp..], mask[mp - 1..]) {
      var k :| cp <= k <= |subject| && Glob(same, subject[k..], mask[mp..]);
      LiteralThenRest(same, subject, k, mask, mp, mi);
      StarMovesLeft(same, subject, si, k + (mi - mp), mask[mi + 1..]);
    }
  }

  // A mismatch after the literal stretch rules out the current start, so the next one is tried.
  lemma RetryNext(same: (char, char) -> bool, subject: string, cp: nat, mask: string, mp: nat, mi: nat)
    requires 0 < mp <= |mask| && mask[mp - 1] == '*' && cp < |subject|
    requires LiteralMatch(same, subject, cp, mask, mp, mi)
    requires !Glob(same, subject[cp + (mi - mp)..], mask[mi..])
    ensures Glob(same, subject[cp..], mask[mp - 1..]) == Glob(same, subject[cp + 1..], mask[mp - 1..])
  {
    LiteralStep(same, subject, cp, mask, mp, mi);
    assert mask[mp - 1..][1..] == mask[mp..] && subject[cp..][1..] == subject[cp + 1..];
  }

  lemma MismatchFails(same: (char, char) -> bool, subject: string, si: nat, mask: string, mi: nat)
    requires si < |subject| && mi <= |mask| && At(mask, mi) != '*'
    requires !MatchChar(same, At(mask, mi), subject[si])
    ensures !Glob(same, subject[si..], mask[mi..])
  {
  }

  // With the subject used up the current start decides: a later one has too few characters.
  lemma SubjectUsedUp(same: (char, char) -> bool, subject: string, cp: nat, mask: string, mp: nat, mi: nat)
    requires 0 < mp <= |mask| && mask[mp - 1] == '*'
    requires LiteralMatch(same, subject, cp, mask, mp, mi) && cp + (mi - mp) == |subject|
    ensures Glob(same, subject[cp..], mask[mp - 1..]) == Glob(same, "", mask[mi..])
  {
    assert mask[mp - 1..] == "*" + mask[mp..] && subject[|subject|..] == "";
    StarUnfolds(same, subject, cp, mask[mp..]);
    LiteralStep(same, subject, cp, mask, mp, mi);
    if Glob(same, subject[cp..], mask[mp - 1..]) {
      var k :| cp <= k <= |subject| && Glob(same, subject[k..], mask[mp..]);
      LiteralThenRest(same, subject, k, mask, mp, mi);
      assert k == cp;
    }
  }

  lemma {:induction false} OnlyStarsMatchNothing(same: (char, char) -> bool, mask: string, i: nat)
    requires i <= |mask|
    ensures Glob(same, "", mask[i..]) <==> forall k :: i <= k < |mask| ==> mask[k] == '*'
    decreases |mask| - i
  {
    if i < |mask| {
      assert mask[i..][1..] == mask[i + 1..];
      OnlyStarsMatchNothing(same, mask, i + 1);
    }
  }

  lemma {:induction false} TrailingStarMatchesAll(same: (char, char) -> bool, subject: string)
    ensures Glob(same, subject, "*")
  {
    if subject != "" {
      TrailingStarMatchesAll(same, subject[1..]);
    }
  }

  lemma FromTheStart(same: (char, char) -> bool, subject: string, mask: string, i: nat)
    requires LiteralMatch(same, subject, 0, mask, 0, i)
    ensures Glob(same, subject, mask) == Glob(same, subject[i..], mask[i..])
  {
    assert subject[0..] == subject && mask[0..] == mask;
    LiteralStep(same, subject, 0, mask, 0, i);
  }

  lemma FirstMismatch(same: (char, char) -> bool, subject: string, mask: string, i: nat)
    requires LiteralMatch(same, subject, 0, mask, 0, i)
    requires i < |subject| && At(mask, i) != '*' && !MatchChar(same, At(mask, i), subject[i])
    ensures !Glob(same, subject, mask)
  {
    MismatchFails(same, subject, i, mask, i);
    FromTheStart(same, subject, mask, i);
  }

  lemma NotPastTheEnd(same: (char, char) -> bool, mask: string, mi: nat, subject: string, si: nat)
    requires IsCString(subject) && Comparison(same) && mi <= |mask| && si < |subject|
    requires MatchChar(same, At(mask, mi), subject[si])
    ensures mi < |mask|
  {
    assert subject[si] in subject;
  }

  lemma EndOfMask(mask: string, mi: nat)
    requires IsCString(mask) && mi <= |mask|
    ensures At(mask, mi) == NUL <==> mi == |mask|
  {
    if mi < |mask| {
      assert mask[mi] in mask;
    }
  }

  // What the second loop keeps: before the first star all of the subject and mask seen so far
  // match literally; after it the match hangs on the subject from the last retry on.
  ghost predicate Attempt(same: (char, char) -> bool, subject: string, si: nat, cp: nat, mask: string, mi: nat, mp: nat)
    requires si <= |subject| && mi <= |mask|
  {
    if mp == 0 then
      && cp == 0 && (si < |subject| ==> At(mask, mi) == '*')
      && Glob(same, subject, mask) == Glob(same, subject[si..], mask[mi..])
    else
      && mp <= mi && mask[mp - 1] == '*'
      && 0 < cp && si == cp - 1 + (mi - mp)
      && LiteralMatch(same, subject, cp - 1, mask, mp, mi)
      && Glob(same, subject, mask) == Glob(same, subject[cp - 1..], mask[mp - 1..])
  }

  lemma AttemptAtStar(same: (char, char) -> bool, subject: string, si: nat, cp: nat, mask: string, mi: nat, mp: nat)
    requires si < |subject| && mi < |mask| && mask[mi] == '*'
    requires Attempt(same, subject, si, cp, mask, mi, mp)
    ensures Attempt(same, subject, si, si + 1, mask, mi + 1, mi + 1)
    ensures mi + 1 == |mask| ==> Glob(same, subject, mask)
  {
    if mp > 0 {
      CommitToNextStar(same, subject, cp - 1, mask, mp, mi);
    }
    if mi + 1 == |mask| {
      assert mask[mi..] == "*";
      TrailingStarMatchesAll(same, subject[si..]);
    }
  }

  lemma AttemptOnMatch(same: (char, char) -> bool, subject: string, si: nat, cp: nat, mask: string, mi: nat, mp: nat)
    requires si < |subject| && mi < |mask| && mask[mi] != '*' && MatchChar(same, mask[mi], subject[si])
    requires Attempt(same, subject, si, cp, mask, mi, mp)
    ensures Attempt(same, subject, si + 1, cp, mask, mi + 1, mp)
  {
  }

  lemma AttemptOnMismatch(same: (char, char) -> bool, subject: string, si: nat, cp: nat, mask: string, mi: nat, mp: nat)
    requires si < |subject| && mi <= |mask| && At(mask, mi) != '*'
    requires !MatchChar(same, At(mask, mi), subject[si])
    requires Attempt(same, subject, si, cp, mask, mi, mp)
    ensures 0 < mp <= mi && 0 < cp <= |subject|
    ensures Attempt(same, subject, cp, cp + 1, mask, mp, mp)
  {
    MismatchFails(same, subject, si, mask, mi);
    RetryNext(same, subject, cp - 1, mask, mp, mi);
  }

  lemma AttemptAtEnd(same: (char, char) -> bool, subject: string, cp: nat, mask: string, mi: nat, mp: nat)
    requires mi <= |mask| && Attempt(same, subject, |subject|, cp, mask, mi, mp)
    ensures Glob(same, subject, mask) <==> forall k :: mi <= k < |mask| ==> mask[k] == '*'
  {
    if mp > 0 {
      SubjectUsedUp(same, subject, cp - 1, mask, mp, mi);
    }
    assert subject[|subject|..] == "";
    OnlyStarsMatchNothing(same, mask, mi);
  }

  // The pointers of the code are positions: subject at si, mask at mi, mp just after the last
  // star seen, cp the position the next retry starts from; mp == 0 is the null pointer.
  // The function is cut in two at its first star; the second part is the loop that backtracks.
  method WildcardMatch(same: (char, char) -> bool, subject: string, mask: string) returns (matched: bool)
    requires IsCString(subject) && IsCString(mask) && Comparison(same)
    ensures matched <==> Glob(same, subject, mask)
  {
    var si, mi := 0, 0;
    while si < |subject| && At(mask, mi) != '*'
      invariant LiteralMatch(same, subject, 0, mask, 0, mi) && si == mi
      decreases |subject| - si
    {
      if !MatchChar(same, At(mask, mi), subject[si]) {
        FirstMismatch(same, subject, mask, si);
        return false;
      }
      NotPastTheEnd(same, mask, mi, subject, si);
      mi := mi + 1;
      si := si + 1;
    }
    FromTheStart(same, subject, mask, si);
    matched := MatchFromStar(same, subject, si, mask, mi);
  }

  method MatchFromStar(same: (char, char) -> bool, subject: string, subjectStart: nat, mask: string, maskStart: nat)
    returns (matched: bool)
    requires IsCString(subject) && IsCString(mask) && Comparison(same)
    requires subjectStart <= |subject| && maskStart <= |mask|
    requires Attempt(same, subject, subjectStart, 0, mask, maskStart, 0)
    ensures matched <==> Glob(same, subject, mask)
  {
    var si: nat, mi: nat, mp: nat, cp: nat := subjectStart, maskStart, 0, 0;
    while si < |subject|
      invariant si <= |subject| && mi <= |mask|
      invariant Attempt(same, subject, si, cp, mask, mi, mp)
      invariant mp <= mi && cp <= |subject| + 1
      decreases |mask| - mp, |subject| + 1 - cp, |subject| - si
    {
      if At(mask, mi) == '*' {
        AttemptAtStar(same, subject, si, cp, mask, mi, mp);
        mi := mi + 1;
        EndOfMask(mask, mi);
        if At(mask, mi) == NUL {
          return true;
        }
        mp := mi;
        cp := si + 1;
      } else if MatchChar(same, At(mask, mi), subject[si]) {
        NotPastTheEnd(same, mask, mi, subject, si);
        AttemptOnMatch(same, subject, si, cp, mask, mi, mp);
        mi := mi + 1;
        si := si + 1;
      } else {
        AttemptOnMismatch(same, subject, si, cp, mask, mi, mp);
        mi := mp;
        si := cp;
        cp := cp + 1;
      }
    }

    AttemptAtEnd(same, subject, cp, mask, mi, mp);
    ghost var from := mi;
    while At(mask, mi) == '*'
      invariant from <= mi <= |mask|
      invariant forall k :: from <= k < mi ==> mask[k] == '*'
      decreases |mask| - mi
    {
      mi := mi + 1;
    }
    matched := At(mask, mi) == NUL;
    EndOfMask(mask, mi);
  }

  // ------------------------------------------------------------------ masks read off

  // Without a star a mask matches character by character: '?' anything, any other character what
  // the comparison says.
  lemma {:induction false} NoStarIsPointwise(same: (char, char) -> bool, subject: string, mask: string)
    requires '*' !in mask
    ensures Glob(same, subject, mask) <==>
      |subject| == |mask| && forall i :: 0 <= i < |mask| ==> mask[i] == '?' || same(mask[i], subject[i])
    decreases |mask|
  {
    if mask != "" {
      assert mask[0] in mask;
      if subject != "" {
        NoStarIsPointwise(same, subject[1..], mask[1..]);
        var s, m := subject[1..], mask[1..];
        if |subject| == |mask| {
          assert forall i :: 0 <= i < |m| ==> m[i] == mask[i + 1] && s[i] == subject[i + 1];
          assert forall i :: 0 < i < |mask| ==> mask[i] == m[i - 1] && subject[i] == s[i - 1];
        }
      }
    }
  }

  // So n question marks match exactly the subjects of length n, and a mask of plain characters
  // under exact comparison only itself.
  lemma QuestionMarks(same: (char, char) -> bool, subject: string, mask: string)
    requires forall i :: 0 <= i < |mask| ==> mask[i] == '?'
    ensures Glob(same, subject, mask) <==> |subject| == |mask|
  {
    NoStarIsPointwise(same, subject, mask);
  }

  lemma PlainMask(subject: string, mask: string)
    requires '*' !in mask && '?' !in mask
    ensures Glob((m: char, c: char) => m == c, subject, mask) <==> subject == mask
  {
    NoStarIsPointwise((m: char, c: char) => m == c, subject, mask);
  }
}
