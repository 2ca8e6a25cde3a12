/** Text primitives the ticket code borrows from the .NET base library:
    `char.IsWhiteSpace`, `string.IsNullOrWhiteSpace`, `string.Trim`,
    `ToLowerInvariant` and `StringComparison.OrdinalIgnoreCase`.
    Case folding is modelled for ASCII letters only; every other character
    folds to itself. A .NET `null` string behaves as "" in every use the
    core makes of these primitives, so strings here are never null. */
module Text {

  /** `char.IsWhiteSpace`: the Unicode space, line and paragraph separators
      together with the control characters U+0009..U+000D and U+0085. */
  predicate IsWhite(c: char)
  {
    c == ' ' || ('\t' <= c <= '\r') || c == '\U{0085}' || c == '\U{00A0}'
    || c == '\U{1680}' || ('\U{2000}' <= c <= '\U{200A}') || c == '\U{2028}'
    || c == '\U{2029}' || c == '\U{202F}' || c == '\U{205F}' || c == '\U{3000}'
  }

  /** `string.IsNullOrWhiteSpace`: empty, or white space only. */
  predicate IsBlank(s: string)
  {
    forall i {:trigger IsWhite(s[i])} :: 0 <= i < |s| ==> IsWhite(s[i])
  }

  /** Drops the leading white space: the result is the longest suffix of `s`
      that does not start with white space. */
  function TrimStart(s: string): (r: string)
    ensures |r| <= |s|
    ensures forall k {:trigger IsWhite(s[k])} :: 0 <= k < |s| - |r| ==> IsWhite(s[k])
    ensures r == [] || !IsWhite(r[0])
  {
    if s != [] && IsWhite(s[0]) then TrimStart(s[1..]) else s
  }

  /** Drops the trailing white space: the result is the longest prefix of `s`
      that does not end with white space. */
  function TrimEnd(s: string): (r: string)
    ensures |r| <= |s|
    ensures forall k {:trigger IsWhite(s[k])} :: |r| <= k < |s| ==> IsWhite(s[k])
    ensures r == [] || !IsWhite(r[|r| - 1])
  {
    if s != [] && IsWhite(s[|s| - 1]) then TrimEnd(s[..|s| - 1]) else s
  }

  /** What `TrimStart` keeps is a suffix of its input. */
  lemma {:induction false} TrimStartSuffix(s: string)
    ensures TrimStart(s) == s[|s| - |TrimStart(s)|..]
    decreases |s|
  {
    if s != [] && IsWhite(s[0]) {
      TrimStartSuffix(s[1..]);
      assert s[1..][|s[1..]| - |TrimStart(s[1..])|..] == s[|s| - |TrimStart(s)|..];
    }
  }

  /** What `TrimEnd` keeps is a prefix of its input. */
  lemma {:induction false} TrimEndPrefix(s: string)
    ensures TrimEnd(s) == s[..|TrimEnd(s)|]
    decreases |s|
  {
    if s != [] && IsWhite(s[|s| - 1]) {
      TrimEndPrefix(s[..|s| - 1]);
      assert s[..|s| - 1][..|TrimEnd(s)|] == s[..|TrimEnd(s)|];
    }
  }

  /** `string.Trim()`: the part of `s` between its leading and its trailing
      white space. */
  function Trim(s: string): (r: string)
    ensures |r| <= |s|
    ensures r == [] || (!IsWhite(r[0]) && !IsWhite(r[|r| - 1]))
  {
    TrimEndPrefix(TrimStart(s));
    TrimEnd(TrimStart(s))
  }

  /** What `Trim` keeps is the slice of `s` that starts after the leading
      white space, and everything outside that slice is white space. */
  lemma TrimSlice(s: string)
    ensures var r, a := Trim(s), |s| - |TrimStart(s)|;
            && a + |r| <= |s| && r == s[a..a + |r|]
            && (forall k {:trigger IsWhite(s[k])} :: 0 <= k < a ==> IsWhite(s[k]))
            && (forall k {:trigger IsWhite(s[k])} :: a + |r| <= k < |s| ==> IsWhite(s[k]))
  {
    var t := TrimStart(s);
    var a, n := |s| - |t|, |TrimEnd(t)|;
    TrimStartSuffix(s);
    TrimEndPrefix(t);
    assert s[a..][..n] == s[a..a + n];
    forall k | a + n <= k < |s|
      ensures IsWhite(s[k])
    {
      assert s[k] == t[k - a];
    }
  }

  /** A string that neither starts nor ends with white space is its own trim. */
  lemma TrimFixed(s: string)
    requires s == [] || (!IsWhite(s[0]) && !IsWhite(s[|s| - 1]))
    ensures Trim(s) == s
  {
  }

  /** Trimming is idempotent. */
  lemma TrimIdempotent(s: string)
    ensures Trim(Trim(s)) == Trim(s)
  {
    TrimFixed(Trim(s));
  }

  /** Trimming leaves nothing exactly when the string is blank, so the
      blank test and "the trimmed value is empty" are the same check. */
  lemma TrimEmptyIffBlank(s: string)
    ensures Trim(s) == [] <==> IsBlank(s)
  {
    var t := TrimStart(s);
    TrimStartSuffix(s);
    TrimEndPrefix(t);
    if t != [] {
      assert t[0] == s[|s| - |t|];
    }
  }

  /** The trim of a non-blank string is non-blank. */
  lemma TrimNonBlank(s: string)
    requires !IsBlank(s)
    ensures !IsBlank(Trim(s))
  {
    TrimEmptyIffBlank(s);
    var r := Trim(s);
    assert !IsWhite(r[0]);
  }

  /** `char.ToLowerInvariant` on ASCII letters. */
  function Lower(c: char): (d: char)
    ensures 'A' <= c <= 'Z' ==> 'a' <= d <= 'z' && d as int - c as int == 32
    ensures !('A' <= c <= 'Z') ==> d == c
  {
    if 'A' <= c <= 'Z' then (c as int + 32) as char else c
  }

  /** `string.ToLowerInvariant`, character by character. */
  function FoldCase(s: string): (r: string)
    ensures |r| == |s|
    ensures forall i :: 0 <= i < |s| ==> r[i] == Lower(s[i])
  {
    seq(|s|, i requires 0 <= i < |s| => Lower(s[i]))
  }

  /** Lower-casing leaves no upper-case ASCII letter behind, so lower-casing
      twice is lower-casing once. */
  lemma FoldCaseIdempotent(s: string)
    ensures forall i :: 0 <= i < |s| ==> !('A' <= FoldCase(s)[i] <= 'Z')
    ensures FoldCase(FoldCase(s)) == FoldCase(s)
  {
  }

  /** Lower-casing works on each part of a concatenation on its own. */
  lemma FoldCaseAppend(a: string, b: string)
    ensures FoldCase(a + b) == FoldCase(a) + FoldCase(b)
  {
    assert forall i :: 0 <= i < |a + b| ==> FoldCase(a + b)[i] == (FoldCase(a) + FoldCase(b))[i];
  }

  /** `string.Equals(a, b, StringComparison.OrdinalIgnoreCase)`. */
  predicate EqualsIgnoreCase(a: string, b: string)
  {
    FoldCase(a) == FoldCase(b)
  }

  /** Ignoring case identifies strings of equal length whose characters agree
      after folding, and only those. */
  lemma EqualsIgnoreCaseAt(a: string, b: string)
    ensures EqualsIgnoreCase(a, b) <==>
              |a| == |b| && forall i :: 0 <= i < |a| ==> Lower(a[i]) == Lower(b[i])
  {
    if |a| == |b| && forall i :: 0 <= i < |a| ==> Lower(a[i]) == Lower(b[i]) {
      assert forall i :: 0 <= i < |a| ==> FoldCase(a)[i] == FoldCase(b)[i];
    }
  }
}
