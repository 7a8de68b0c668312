/** The description cleaner of the trial service: every match of the regular
    expression `<[^>]+>` is replaced by the empty string, scanning left to
    right as a regular-expression substitution does. */
module Tags {
  import opened Wrappers

  /** The language of the pattern `<[^>]+>`: an opening bracket, one or more
      characters other than a closing bracket, then a closing bracket. */
  predicate IsTag(t: string) {
    && |t| >= 3
    && t[0] == '<'
    && t[|t| - 1] == '>'
    && forall k :: 1 <= k < |t| - 1 ==> t[k] != '>'
  }

  /** True when no substring of `s` matches the pattern. */
  predicate NoTag(s: string) {
    forall i, j :: 0 <= i <= j <= |s| ==> !IsTag(s[i..j])
  }

  /** The first position at or after `from` holding `c`, if there is one. */
  function IndexOf(s: string, c: char, from: nat): (r: Option<nat>)
    decreases |s| - from
    ensures r.Some? ==> from <= r.value < |s| && s[r.value] == c
    ensures r.Some? ==> forall k :: from <= k < r.value ==> s[k] != c
    ensures r.None? ==> forall k :: from <= k < |s| ==> s[k] != c
  {
    if from >= |s| then None
    else if s[from] == c then Some(from)
    else IndexOf(s, c, from + 1)
  }

  /** The length of the match of the pattern at the head of `s`, if the
      pattern matches there. `[^>]+` cannot extend past the first `>`, so the
      match, when there is one, ends at the first `>` after the `<`. */
  function TagLen(s: string): (r: Option<nat>)
    ensures r.Some? ==> r.value <= |s| && IsTag(s[..r.value])
  {
    if |s| > 0 && s[0] == '<' then
      match IndexOf(s, '>', 1)
      case Some(j) => if j >= 2 then Some(j + 1) else None
      case None => None
    else None
  }

  /** The match at the head of a string is unique: at most one prefix is a tag. */
  lemma TagLenIff(s: string, n: nat)
    ensures TagLen(s) == Some(n) <==> n <= |s| && IsTag(s[..n])
  {
    if n <= |s| && IsTag(s[..n]) {
      var j := IndexOf(s, '>', 1);
      assert s[n - 1] == '>';
      assert j.Some?;
      assert j.value == n - 1;
    }
  }

  /** `re.sub(r"<[^>]+>", "", s)`: at each position either a whole match is
      deleted and scanning resumes after it, or the character is kept. */
  function RemoveTags(s: string): (r: string)
    decreases |s|
    ensures |r| <= |s|
  {
    if |s| == 0 then []
    else match TagLen(s)
      case Some(n) => RemoveTags(s[n..])
      case None => [s[0]] + RemoveTags(s[1..])
  }

  /** `a` can be obtained from `b` by deleting elements. */
  predicate IsSubseq<T(==)>(a: seq<T>, b: seq<T>)
    decreases |b|
  {
    if |a| == 0 then true
    else if |b| == 0 then false
    else (a[0] == b[0] && IsSubseq(a[1..], b[1..])) || IsSubseq(a, b[1..])
  }

  lemma {:induction false} SubseqMembers<T>(a: seq<T>, b: seq<T>)
    requires IsSubseq(a, b)
    ensures forall x :: x in a ==> x in b
    decreases |b|
  {
    if |a| > 0 {
      if a[0] == b[0] && IsSubseq(a[1..], b[1..]) {
        SubseqMembers(a[1..], b[1..]);
        assert forall x :: x in a ==> x == a[0] || x in a[1..];
      } else {
        SubseqMembers(a, b[1..]);
      }
    }
  }

  lemma {:induction false} SubseqExtend<T>(a: seq<T>, p: seq<T>, b: seq<T>)
    requires IsSubseq(a, b)
    ensures IsSubseq(a, p + b)
    decreases |p|
  {
    if |p| > 0 && |a| > 0 {
      SubseqExtend(a, p[1..], b);
      var pb := p + b;
      assert pb[1..] == p[1..] + b;
      assert |pb| > 0;
      assert IsSubseq(a, pb[1..]);
    } else if |p| == 0 {
      assert p + b == b;
    }
  }

  /** The cleaned text is the original with some characters deleted. */
  lemma {:induction false} RemoveTagsSubseq(s: string)
    ensures IsSubseq(RemoveTags(s), s)
    decreases |s|
  {
    if |s| > 0 {
      match TagLen(s)
      case Some(n) =>
        RemoveTagsSubseq(s[n..]);
        SubseqExtend(RemoveTags(s[n..]), s[..n], s[n..]);
        assert s[..n] + s[n..] == s;
      case None =>
        RemoveTagsSubseq(s[1..]);
        assert ([s[0]] + RemoveTags(s[1..]))[1..] == RemoveTags(s[1..]);
    }
  }

  /** Every character of the cleaned text occurs in the original. */
  lemma RemoveTagsMembers(s: string)
    ensures forall c :: c in RemoveTags(s) ==> c in s
  {
    RemoveTagsSubseq(s);
    SubseqMembers(RemoveTags(s), s);
  }

  /** A match at the head is deleted whole. */
  lemma TagDeleted(t: string, rest: string)
    requires IsTag(t)
    ensures RemoveTags(t + rest) == RemoveTags(rest)
  {
    var s := t + rest;
    assert s[..|t|] == t;
    TagLenIff(s, |t|);
    assert s[|t|..] == rest;
  }

  /** A character at which the pattern does not match is kept. */
  lemma CharKept(s: string)
    requires |s| > 0
    requires forall n :: 0 <= n <= |s| ==> !IsTag(s[..n])
    ensures RemoveTags(s) == [s[0]] + RemoveTags(s[1..])
  {
    if TagLen(s).Some? {
      TagLenIff(s, TagLen(s).value);
    }
  }

  /** `<>` is not a match: `[^>]+` needs at least one character. */
  lemma EmptyBracketsKept(rest: string)
    ensures RemoveTags("<>" + rest) == "<>" + RemoveTags(rest)
  {
    var s := "<>" + rest;
    assert IndexOf(s, '>', 1) == Some(1);
    assert s[1..] == ">" + rest;
    assert (">" + rest)[1..] == rest;
  }

  /** A string without `<` contains no match. */
  lemma NoOpenNoTag(s: string)
    requires '<' !in s
    ensures NoTag(s)
  {
    forall i, j | 0 <= i <= j <= |s|
      ensures !IsTag(s[i..j])
    {
      if j - i >= 1 {
        assert s[i..j][0] == s[i];
      }
    }
  }

  /** A string with no match is its own cleaned form. */
  lemma {:induction false} NoTagFixpoint(s: string)
    requires NoTag(s)
    ensures RemoveTags(s) == s
    decreases |s|
  {
    if |s| > 0 {
      forall n | 0 <= n <= |s|
        ensures !IsTag(s[..n])
      {
        assert s[..n] == s[0..n];
      }
      CharKept(s);
      var t := s[1..];
      forall i, j | 0 <= i <= j <= |t|
        ensures !IsTag(t[i..j])
      {
        assert t[i..j] == s[i + 1..j + 1];
      }
      NoTagFixpoint(t);
    }
  }

  /** The head of a cleaned string that starts with `>` is that `>`. */
  lemma CloseKept(s: string)
    requires |s| > 0 && s[0] == '>'
    ensures |RemoveTags(s)| > 0 && RemoveTags(s)[0] == '>'
  {
  }

  /** The cleaned text contains no further match of the pattern. */
  lemma {:induction false} NoTagInResult(s: string)
    ensures NoTag(RemoveTags(s))
    decreases |s|
  {
    if |s| > 0 {
      match TagLen(s)
      case Some(n) =>
        NoTagInResult(s[n..]);
      case None =>
        NoTagInResult(s[1..]);
        KeptHeadNoTag(s, RemoveTags(s[1..]));
    }
  }

  /** Keeping a character in front of a cleaned rest creates no match. */
  lemma KeptHeadNoTag(s: string, t: string)
    requires |s| > 0 && TagLen(s).None? && t == RemoveTags(s[1..])
    requires NoTag(t)
    ensures NoTag([s[0]] + t)
  {
    var r := [s[0]] + t;
    ShiftNoTag(s[0], t);
    forall j | 0 <= j <= |r|
      ensures !IsTag(r[0..j])
    {
      HeadNotTag(s, t, j);
      assert r[0..j] == r[..j];
    }
  }

  /** A match in `[c] + t` that does not start at `c` is a match in `t`. */
  lemma ShiftNoTag(c: char, t: string)
    requires NoTag(t)
    ensures forall i, j :: 1 <= i <= j <= |t| + 1 ==> !IsTag(([c] + t)[i..j])
  {
    var r := [c] + t;
    forall i, j | 1 <= i <= j <= |r|
      ensures !IsTag(r[i..j])
    {
      assert r[i..j] == t[i - 1..j - 1];
    }
  }

  /** Where no match starts at the head, none starts at the head of the kept
      character followed by the cleaned rest. */
  lemma HeadNotTag(s: string, t: string, j: nat)
    requires |s| > 0 && TagLen(s).None? && t == RemoveTags(s[1..])
    requires j <= |t| + 1
    ensures !IsTag(([s[0]] + t)[..j])
  {
    var r := [s[0]] + t;
    if j >= 3 && s[0] == '<' {
      if IndexOf(s, '>', 1).Some? {
        // the `<` is directly followed by `>`, which cleaning keeps
        CloseKept(s[1..]);
        assert r[..j][1] == '>';
      } else {
        // there is no `>` after the `<`, so cleaning produces none
        RemoveTagsMembers(s[1..]);
        assert r[..j][j - 1] == t[j - 2];
        assert t[j - 2] in t;
      }
    }
  }

  /** A string is left unchanged exactly when it contains no match. */
  lemma UnchangedIff(s: string)
    ensures RemoveTags(s) == s <==> NoTag(s)
  {
    NoTagInResult(s);
    if NoTag(s) {
      NoTagFixpoint(s);
    }
  }

  /** A string containing no `<` is returned unchanged. */
  lemma NoOpenUnchanged(s: string)
    requires '<' !in s
    ensures RemoveTags(s) == s
  {
    NoOpenNoTag(s);
    NoTagFixpoint(s);
  }

  /** Cleaning twice is cleaning once. */
  lemma Idempotent(s: string)
    ensures RemoveTags(RemoveTags(s)) == RemoveTags(s)
  {
    NoTagInResult(s);
    NoTagFixpoint(RemoveTags(s));
  }

  /** A left-to-right scan equivalent to the substitution: at each `<` look
      for the first `>`; delete through it when something lies between,
      otherwise keep the character and move on to the rest. */
  method StripTags(s: string) returns (r: string)
    ensures r == RemoveTags(s)
  {
    r := [];
    var rest := s;
    while |rest| > 0
      invariant r + RemoveTags(rest) == RemoveTags(s)
      decreases |rest|
    {
      var j := 1;
      if rest[0] == '<' {
        j := FindClose(rest, 1);
      }
      ScanStep(rest, j);
      if rest[0] == '<' && j < |rest| && j > 1 {
        rest := rest[j + 1..];
      } else {
        r := r + [rest[0]];
        rest := rest[1..];
      }
    }
  }

  /** The position of the first `>` at or after `from`, or `|s|` if none. */
  method FindClose(s: string, from: nat) returns (j: nat)
    requires from <= |s|
    ensures from <= j <= |s|
    ensures forall k :: from <= k < j ==> s[k] != '>'
    ensures j < |s| ==> s[j] == '>'
  {
    j := from;
    while j < |s| && s[j] != '>'
      invariant from <= j <= |s|
      invariant forall k :: from <= k < j ==> s[k] != '>'
    {
      j := j + 1;
    }
  }

  /** One step of the scan: given where the search for `>` stopped, the
      output so far followed by the cleaned rest is still the cleaned input,
      whether the step skips the match or keeps `s[i]`. */
  lemma ScanStep(s: string, j: nat)
    requires 1 <= j <= |s|
    requires s[0] == '<' ==> forall k :: 1 <= k < j ==> s[k] != '>'
    requires s[0] == '<' ==> j < |s| ==> s[j] == '>'
    ensures s[0] == '<' && j < |s| && j > 1 ==> RemoveTags(s) == RemoveTags(s[j + 1..])
    ensures !(s[0] == '<' && j < |s| && j > 1) ==> RemoveTags(s) == [s[0]] + RemoveTags(s[1..])
  {
    if s[0] == '<' {
      ScanMatches(s, 0, j);
      assert s[0..] == s;
    }
  }

  /** What the inner search of `StripTags` finds is the match `TagLen` describes. */
  lemma ScanMatches(s: string, i: nat, j: nat)
    requires i < |s| && s[i] == '<'
    requires i + 1 <= j <= |s|
    requires forall k :: i + 1 <= k < j ==> s[k] != '>'
    requires j < |s| ==> s[j] == '>'
    ensures TagLen(s[i..]) == if j < |s| && j > i + 1 then Some(j - i + 1) else None
  {
    var t := s[i..];
    var k := IndexOf(t, '>', 1);
    if j < |s| {
      assert t[j - i] == '>';
      assert k == Some(j - i);
    } else {
      assert k.None?;
    }
  }
}
