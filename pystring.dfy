/** Python's `str.replace(pat, rep)`: every non-overlapping occurrence of
    `pat`, scanning left to right, is replaced by `rep`. */
module PyString {

  /** Python's special case of an empty `pat`: `rep` is inserted before every
      character and once at the end. */
  function ReplaceEmpty(s: string, rep: string): (r: string)
    ensures |r| == |s| + (|s| + 1) * |rep|
  {
    if s == [] then rep else rep + [s[0]] + ReplaceEmpty(s[1..], rep)
  }

  function Replace(s: string, pat: string, rep: string): (r: string)
    // a replacement as long as the pattern keeps the length
    ensures |rep| == |pat| ==> |r| == |s|
    decreases |s|
  {
    if pat == [] then ReplaceEmpty(s, rep)
    else if |s| < |pat| then s
    else if s[..|pat|] == pat then rep + Replace(s[|pat|..], pat, rep)
    else [s[0]] + Replace(s[1..], pat, rep)
  }

  /** `pat` occurs in `s` starting at index `i`. */
  predicate OccursAt(s: string, pat: string, i: int)
  {
    0 <= i && i + |pat| <= |s| && s[i..i + |pat|] == pat
  }

  predicate Contains(s: string, pat: string)
  {
    exists i | 0 <= i <= |s| :: OccursAt(s, pat, i)
  }

  /** Replacing a string by itself changes nothing. */
  lemma {:induction false} ReplaceSelf(s: string, p: string)
    ensures Replace(s, p, p) == s
  {
    if p == [] {
      ReplaceEmptyNothing(s);
    } else if |s| < |p| {
    } else if s[..|p|] == p {
      ReplaceSelf(s[|p|..], p);
      assert s == s[..|p|] + s[|p|..];
    } else {
      ReplaceSelf(s[1..], p);
      assert s == [s[0]] + s[1..];
    }
  }

  lemma {:induction false} ReplaceEmptyNothing(s: string)
    ensures ReplaceEmpty(s, "") == s
  {
    if s != [] {
      ReplaceEmptyNothing(s[1..]);
      assert s == [s[0]] + s[1..];
    }
  }

  /** A string with no occurrence of a non-empty `p` is left unchanged. */
  lemma {:induction false} ReplaceAbsent(s: string, p: string, q: string)
    requires p != [] && !Contains(s, p)
    ensures Replace(s, p, q) == s
  {
    if |s| < |p| {
    } else {
      assert s[0..0 + |p|] == s[..|p|];
      assert !OccursAt(s, p, 0);
      assert !Contains(s[1..], p) by {
        forall i | OccursAt(s[1..], p, i)
          ensures OccursAt(s, p, i + 1)
        {
          assert s[1..][i..i + |p|] == s[i + 1..i + 1 + |p|];
        }
      }
      ReplaceAbsent(s[1..], p, q);
      assert s == [s[0]] + s[1..];
    }
  }

  /** A label equal to `p` becomes exactly `q`; for an empty `p` this is
      `"".replace("", q) == q`. */
  lemma ReplaceWhole(p: string, q: string)
    ensures Replace(p, p, q) == q
  {
    if p != [] {
      assert p[..|p|] == p;
      assert p[|p|..] == [];
    }
  }
}
