/**
 The file-name-safe form of a user name: every character that is not a word
 character, whitespace or `-` is dropped, surrounding whitespace is stripped,
 and each remaining space becomes `_`.

 Character classes are modelled over ASCII. Python's `\w` there is
 `[A-Za-z0-9_]`; Python's `\s` and `str.strip()` agree on whitespace, which in
 ASCII is the code points 9 to 13 and 28 to 32 (the latter range ends with the
 space character itself). Every other character is neither.
 */
module Sanitize {

  /** A character matched by `\w`. */
  predicate IsWordChar(c: char) {
    'a' <= c <= 'z' || 'A' <= c <= 'Z' || '0' <= c <= '9' || c == '_'
  }

  /** A character matched by `\s` and removed by `strip()`. */
  predicate IsSpaceChar(c: char) {
    9 <= c as int <= 13 || 28 <= c as int <= 32
  }

  /** A character the pattern `[^\w\s-]` does NOT match, so it survives the substitution. */
  predicate IsKept(c: char) {
    IsWordChar(c) || IsSpaceChar(c) || c == '-'
  }

  /** The regular-expression substitution that deletes every disallowed character: the subsequence of kept characters. */
  function DropDisallowed(s: string): (r: string)
    ensures |r| <= |s|
    ensures forall i :: 0 <= i < |r| ==> IsKept(r[i])
    ensures forall c :: c in r <==> c in s && IsKept(c)
    ensures (forall i :: 0 <= i < |s| ==> IsKept(s[i])) ==> r == s
  {
    if s == [] then []
    else if IsKept(s[0]) then [s[0]] + DropDisallowed(s[1..])
    else DropDisallowed(s[1..])
  }

  /** On one character the substitution keeps it exactly when it is allowed. */
  lemma DropDisallowedSingle(c: char)
    ensures DropDisallowed([c]) == if IsKept(c) then [c] else []
  {
    assert [c][1..] == [];
  }

  /**
   The substitution works character by character: filtering a concatenation
   concatenates the filtered parts. With `DropDisallowedSingle` this fixes
   the result as the in-order subsequence of allowed characters, each kept as
   often as it occurs.
   */
  lemma {:induction false} DropDisallowedAppend(a: string, b: string)
    ensures DropDisallowed(a + b) == DropDisallowed(a) + DropDisallowed(b)
    decreases |a|
  {
    if a != [] {
      assert (a + b)[0] == a[0];
      assert (a + b)[1..] == a[1..] + b;
      DropDisallowedAppend(a[1..], b);
    } else {
      assert a + b == b;
    }
  }

  /** `lstrip()`: the suffix left after removing leading whitespace. */
  function StripLeading(s: string): (r: string)
    ensures |r| <= |s| && r == s[|s| - |r|..]
    ensures forall i :: 0 <= i < |s| - |r| ==> IsSpaceChar(s[i])
    ensures r != [] ==> !IsSpaceChar(r[0])
  {
    if s != [] && IsSpaceChar(s[0]) then StripLeading(s[1..]) else s
  }

  /** `rstrip()`: the prefix left after removing trailing whitespace. */
  function StripTrailing(s: string): (r: string)
    ensures |r| <= |s| && r == s[..|r|]
    ensures forall i :: |r| <= i < |s| ==> IsSpaceChar(s[i])
    ensures r != [] ==> !IsSpaceChar(r[|r| - 1])
  {
    if s != [] && IsSpaceChar(s[|s| - 1]) then StripTrailing(s[..|s| - 1]) else s
  }

  /** `strip()`: a contiguous slice of `s` with only whitespace cut on either side. */
  function Strip(s: string): (r: string)
    ensures exists lo, hi :: 0 <= lo <= hi <= |s| && r == s[lo..hi]
                            && (forall i :: 0 <= i < lo ==> IsSpaceChar(s[i]))
                            && (forall i :: hi <= i < |s| ==> IsSpaceChar(s[i]))
    ensures r != [] ==> !IsSpaceChar(r[0]) && !IsSpaceChar(r[|r| - 1])
    ensures forall c :: c in r ==> c in s
  {
    var left := StripLeading(s);
    var r := StripTrailing(left);
    assert r == s[|s| - |left|..|s| - |left| + |r|];
    r
  }

  /** Every space becomes an underscore. */
  function ReplaceSpaces(s: string): (r: string)
    ensures |r| == |s|
    ensures forall i :: 0 <= i < |s| ==> r[i] == if s[i] == ' ' then '_' else s[i]
  {
    if s == [] then []
    else [if s[0] == ' ' then '_' else s[0]] + ReplaceSpaces(s[1..])
  }

  /** The user name as it is used for the saved table's file name. */
  function SanitizeUsername(u: string): (r: string)
    ensures ' ' !in r
    ensures forall i :: 0 <= i < |r| ==> IsWordChar(r[i]) || (IsSpaceChar(r[i]) && r[i] != ' ') || r[i] == '-'
    ensures r != [] ==> !IsSpaceChar(r[0]) && !IsSpaceChar(r[|r| - 1])
  {
    var kept := DropDisallowed(u);
    var stripped := Strip(kept);
    ReplaceSpacesClean(kept, stripped);
    ReplaceSpaces(stripped)
  }

  /** Replacing spaces in stripped, filtered text leaves only allowed non-space characters and no space at either end. */
  lemma ReplaceSpacesClean(kept: string, stripped: string)
    requires forall i :: 0 <= i < |kept| ==> IsKept(kept[i])
    requires forall c :: c in stripped ==> c in kept
    requires stripped != [] ==> !IsSpaceChar(stripped[0]) && !IsSpaceChar(stripped[|stripped| - 1])
    ensures var r := ReplaceSpaces(stripped);
            && ' ' !in r
            && (forall i :: 0 <= i < |r| ==> IsWordChar(r[i]) || (IsSpaceChar(r[i]) && r[i] != ' ') || r[i] == '-')
            && (r != [] ==> !IsSpaceChar(r[0]) && !IsSpaceChar(r[|r| - 1]))
  {
    var r := ReplaceSpaces(stripped);
    assert forall i :: 0 <= i < |r| ==> r[i] == '_' || (r[i] in kept && r[i] != ' ') by {
      forall i | 0 <= i < |r|
        ensures r[i] == '_' || (r[i] in kept && r[i] != ' ')
      {
        if stripped[i] != ' ' {
          assert stripped[i] in stripped;
        }
      }
    }
    assert ' ' !in r by {
      assert forall i :: 0 <= i < |r| ==> r[i] != ' ';
    }
  }

  /** Stripping a string without surrounding whitespace changes nothing. */
  lemma StripUnchanged(s: string)
    requires s != [] ==> !IsSpaceChar(s[0]) && !IsSpaceChar(s[|s| - 1])
    ensures Strip(s) == s
  {
    assert StripLeading(s) == s;
  }

  lemma StripLeadingKeepsNonSpace(s: string, c: char)
    requires c in s && !IsSpaceChar(c)
    ensures c in StripLeading(s)
  {
    var k :| 0 <= k < |s| && s[k] == c;
    var left := StripLeading(s);
    var lo := |s| - |left|;
    assert lo <= k && left[k - lo] == c by {
      assert !IsSpaceChar(s[k]);
      assert left == s[lo..];
    }
    assert left[k - lo] in left;
  }

  lemma StripTrailingKeepsNonSpace(s: string, c: char)
    requires c in s && !IsSpaceChar(c)
    ensures c in StripTrailing(s)
  {
    var right := StripTrailing(s);
    var k :| 0 <= k < |s| && s[k] == c;
    assert right[k] == c;
  }

  /** Every character that is not whitespace survives `strip()`. */
  lemma StripKeepsNonSpace(s: string, c: char)
    requires c in s && !IsSpaceChar(c)
    ensures c in Strip(s)
  {
    StripLeadingKeepsNonSpace(s, c);
    StripTrailingKeepsNonSpace(StripLeading(s), c);
  }

  /** Sanitising is idempotent: a sanitised name is its own sanitised form. */
  lemma SanitizeIdempotent(u: string)
    ensures SanitizeUsername(SanitizeUsername(u)) == SanitizeUsername(u)
  {
    var r := SanitizeUsername(u);
    assert forall i :: 0 <= i < |r| ==> IsKept(r[i]);
    var kept := DropDisallowed(r);
    assert kept == r;
    StripUnchanged(r);
    var replaced := ReplaceSpaces(r);
    assert forall i :: 0 <= i < |r| ==> replaced[i] == r[i] by {
      forall i | 0 <= i < |r|
        ensures replaced[i] == r[i]
      {
        assert r[i] in r;
      }
    }
  }

  /** The sanitised name is empty exactly when the input holds no word character and no `-`. */
  lemma SanitizeEmptyIff(u: string)
    ensures SanitizeUsername(u) == [] <==> forall i :: 0 <= i < |u| ==> !IsWordChar(u[i]) && u[i] != '-'
  {
    var kept := DropDisallowed(u);
    if forall i :: 0 <= i < |u| ==> !IsWordChar(u[i]) && u[i] != '-' {
      assert forall i :: 0 <= i < |kept| ==> IsSpaceChar(kept[i]) by {
        forall i | 0 <= i < |kept|
          ensures IsSpaceChar(kept[i])
        {
          assert kept[i] in u;
        }
      }
    } else {
      var i :| 0 <= i < |u| && (IsWordChar(u[i]) || u[i] == '-');
      assert u[i] in kept;
      StripKeepsNonSpace(kept, u[i]);
    }
  }
}
