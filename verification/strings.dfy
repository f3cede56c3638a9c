/** The two pieces of Python string behaviour the importer relies on:
    the substring test `pat in s` and `s.replace(pat, sub)`. */
module Strings {

  /** `pat` occurs in `s` starting at index `i`. */
  predicate OccursAt(s: string, pat: string, i: int)
  {
    0 <= i && i + |pat| <= |s| && s[i..i + |pat|] == pat
  }

  /** Python's `pat in s`, scanning `s` from the left. */
  predicate Contains(s: string, pat: string)
    decreases |s|
  {
    |pat| <= |s| && (s[..|pat|] == pat || (|s| > 0 && Contains(s[1..], pat)))
  }

  /** The scan agrees with the positional definition of an occurrence. */
  lemma {:induction false} ContainsIffOccurs(s: string, pat: string)
    ensures Contains(s, pat) <==> exists i :: OccursAt(s, pat, i)
    decreases |s|
  {
    if Contains(s, pat) {
      if s[..|pat|] == pat {
        assert OccursAt(s, pat, 0);
      } else {
        ContainsIffOccurs(s[1..], pat);
        var i :| OccursAt(s[1..], pat, i);
        assert s[1..][i..i + |pat|] == s[i + 1..i + 1 + |pat|];
        assert OccursAt(s, pat, i + 1);
      }
    } else if i :| OccursAt(s, pat, i) {
      OccursImpliesContains(s, pat, i);
    }
  }

  /** An occurrence at any index is found by the left-to-right scan. */
  lemma {:induction false} OccursImpliesContains(s: string, pat: string, i: int)
    requires OccursAt(s, pat, i)
    ensures Contains(s, pat)
    decreases |s|
  {
    if i > 0 {
      assert s[1..][i - 1..i - 1 + |pat|] == s[i..i + |pat|];
      OccursImpliesContains(s[1..], pat, i - 1);
    } else {
      assert s[..|pat|] == s[i..i + |pat|];
    }
  }

  /** Python's `s.replace(pat, sub)`: every non-overlapping occurrence of
      `pat`, found left to right, is replaced by `sub`. */
  function Replace(s: string, pat: string, sub: string): (r: string)
    requires |pat| > 0
    ensures !Contains(s, pat) ==> r == s
    decreases |s|
  {
    if |s| < |pat| then s
    else if s[..|pat|] == pat then sub + Replace(s[|pat|..], pat, sub)
    else [s[0]] + Replace(s[1..], pat, sub)
  }

  /** The result of replacing a single character `c` by `sub` in each
      character independently. */
  function MapChar(s: string, c: char, sub: string): (r: string)
    decreases |s|
  {
    if s == "" then "" else (if s[0] == c then sub else [s[0]]) + MapChar(s[1..], c, sub)
  }

  /** Replacing a one-character pattern acts on each character on its own. */
  lemma {:induction false} ReplaceCharIsMap(s: string, c: char, sub: string)
    ensures Replace(s, [c], sub) == MapChar(s, c, sub)
    decreases |s|
  {
    if s != "" {
      ReplaceCharIsMap(s[1..], c, sub);
      if s[0] == c {
        assert s[..1] == [c];
      } else {
        assert s[..1] != [c];
      }
    }
  }

  /** MapChar distributes over concatenation. */
  lemma {:induction false} MapCharAppend(a: string, b: string, c: char, sub: string)
    ensures MapChar(a + b, c, sub) == MapChar(a, c, sub) + MapChar(b, c, sub)
    decreases |a|
  {
    if a != "" {
      assert (a + b)[1..] == a[1..] + b;
      MapCharAppend(a[1..], b, c, sub);
    } else {
      assert a + b == b;
    }
  }

  /** A string lacking the first character of a pattern does not contain
      the pattern. */
  lemma AbsentFirstChar(s: string, pat: string)
    requires pat != "" && pat[0] !in s
    ensures !Contains(s, pat)
  {
    ContainsIffOccurs(s, pat);
  }
}
