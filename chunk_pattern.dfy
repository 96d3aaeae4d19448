/** The default `chunked_builder_pattern`, `(?P<basename>.*) \d+/\d+$`, as
    `re.match` applies it to a node label: a label such as "foo 3/8" names
    chunk 3 of 8 of the builder "foo". The pieces follow Python's regex
    rules for a byte string: `.` is any character but a newline, `\d` is an
    ASCII digit, and `$` matches at the end or just before a final newline. */
module ChunkPattern {
  import opened Types

  predicate IsDigit(c: char)
  {
    '0' <= c <= '9'
  }

  predicate AllDigits(s: string)
  {
    forall i | 0 <= i < |s| :: IsDigit(s[i])
  }

  predicate NoNewline(s: string)
  {
    forall i | 0 <= i < |s| :: s[i] != '\n'
  }

  /** `u` is `\d+/\d+` with its slash at index `k`. */
  predicate ShardAt(u: string, k: int)
  {
    0 < k < |u| - 1 && u[k] == '/' && AllDigits(u[..k]) && AllDigits(u[k + 1..])
  }

  predicate IsShard(u: string)
  {
    exists k | 0 <= k < |u| :: ShardAt(u, k)
  }

  /** `t` matches `\d+/\d+$`, where `$` may leave one final newline over. */
  predicate ShardMarker(t: string)
  {
    IsShard(t) || (|t| > 0 && t[|t| - 1] == '\n' && IsShard(t[..|t| - 1]))
  }

  /** The pattern matches `n` with the group `basename` captured as `n[..i]`. */
  predicate MatchesAt(n: string, i: int)
  {
    0 <= i < |n| && n[i] == ' ' && NoNewline(n[..i]) && ShardMarker(n[i + 1..])
  }

  /** `re.match(chunked_builder_pattern, n)` succeeds. */
  predicate Matches(n: string)
  {
    exists i | 0 <= i < |n| :: MatchesAt(n, i)
  }

  /** Index of the last space of `n`, or -1 when it has none. */
  function LastSpace(n: string): (i: int)
    ensures -1 <= i < |n|
    ensures i >= 0 ==> n[i] == ' '
    ensures forall j | i < j < |n| :: n[j] != ' '
  {
    if n == [] then -1
    else if n[|n| - 1] == ' ' then |n| - 1
    else LastSpace(n[..|n| - 1])
  }

  /** A shard marker holds digits, one slash and at most a newline: no space. */
  lemma MarkerHasNoSpace(t: string)
    requires ShardMarker(t)
    ensures forall j | 0 <= j < |t| :: t[j] != ' '
  {
    var u := if IsShard(t) then t else t[..|t| - 1];
    var k :| 0 <= k < |u| && ShardAt(u, k);
    forall j | 0 <= j < |t|
      ensures t[j] != ' '
    {
      if j < k {
        assert u[..k][j] == t[j];
      } else if k < j < |u| {
        assert u[k + 1..][j - k - 1] == t[j];
      }
    }
  }

  /** The captured basename is unique: the space before the marker is the
      last space of the label. */
  lemma MatchAtLastSpace(n: string, i: int)
    requires MatchesAt(n, i)
    ensures i == LastSpace(n)
  {
    MarkerHasNoSpace(n[i + 1..]);
  }

  /** `m.groupdict()["basename"]` when the pattern matches `n`, and None
      when `re.match` returns None. */
  function Basename(n: string): (r: Option<string>)
    // the captured group is a prefix of the label, ending at a match
    ensures r.Some? ==> |r.value| < |n| && r.value == n[..|r.value|] && MatchesAt(n, |r.value|)
    // and the space after it is the label's last space
    ensures r.Some? ==> forall j | |r.value| < j < |n| :: n[j] != ' '
    ensures r.None? ==> !MatchesAt(n, LastSpace(n))
  {
    var i := LastSpace(n);
    if 0 <= i && MatchesAt(n, i) then Some(n[..i]) else None
  }

  /** Basename succeeds exactly when the pattern matches, and then captures
      the one prefix the pattern allows. */
  lemma BasenameMatches(n: string)
    ensures Basename(n).Some? <==> Matches(n)
    ensures forall i | MatchesAt(n, i) :: Basename(n) == Some(n[..i])
    ensures Basename(n).Some? ==> MatchesAt(n, |Basename(n).value|)
  {
    forall j | MatchesAt(n, j)
      ensures j == LastSpace(n)
    {
      MatchAtLastSpace(n, j);
    }
  }

  /** Every match of the pattern yields the prefix before the label's last
      space, and the label splits there into basename, space and marker. */
  lemma {:induction false} BasenameSplits(n: string, b: string)
    requires Basename(n) == Some(b)
    ensures n == b + " " + n[|b| + 1..]
    ensures NoNewline(b) && ShardMarker(n[|b| + 1..])
  {
    BasenameMatches(n);
    assert n == n[..|b|] + [n[|b|]] + n[|b| + 1..];
  }
}
