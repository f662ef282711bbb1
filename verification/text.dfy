/** The string operations the dashboard applies to text cells: Python's
    `str.strip()`, `str.title()` and a case-insensitive substring test, for
    ASCII text. */
module Text {

  /** Python's `str.isspace()` on ASCII: space, \t \n \v \f \r and the four
      separators \x1c to \x1f. */
  predicate IsSpace(c: char)
  {
    var n := c as int;
    n == 32 || 9 <= n <= 13 || 28 <= n <= 31
  }

  /** A cased character; for ASCII, a letter. */
  predicate IsCased(c: char)
  {
    'a' <= c <= 'z' || 'A' <= c <= 'Z'
  }

  function ToUpper(c: char): (u: char)
    ensures IsCased(u) == IsCased(c)
    ensures !IsCased(c) ==> u == c
  {
    if 'a' <= c <= 'z' then (c as int - 32) as char else c
  }

  function ToLower(c: char): (l: char)
    ensures IsCased(l) == IsCased(c)
    ensures !IsCased(c) ==> l == c
  {
    if 'A' <= c <= 'Z' then (c as int + 32) as char else c
  }

  function TrimStart(s: string): (r: string)
    ensures |r| <= |s| && r == s[|s| - |r|..]
    ensures forall i :: 0 <= i < |s| - |r| ==> IsSpace(s[i])
    ensures r == [] || !IsSpace(r[0])
  {
    if s == [] || !IsSpace(s[0]) then s else TrimStart(s[1..])
  }

  function TrimEnd(s: string): (r: string)
    ensures |r| <= |s| && r == s[..|r|]
    ensures forall i :: |r| <= i < |s| ==> IsSpace(s[i])
    ensures r == [] || !IsSpace(r[|r| - 1])
  {
    if s == [] || !IsSpace(s[|s| - 1]) then s else TrimEnd(s[..|s| - 1])
  }

  /** `str.strip()`: the slice of s left after removing leading and trailing
      whitespace; it neither starts nor ends with whitespace. */
  function Strip(s: string): (r: string)
    ensures exists i, j ::
              && 0 <= i <= j <= |s| && r == s[i..j]
              && (forall k :: 0 <= k < i ==> IsSpace(s[k]))
              && (forall k :: j <= k < |s| ==> IsSpace(s[k]))
    ensures r == [] || (!IsSpace(r[0]) && !IsSpace(r[|r| - 1]))
  {
    var t := TrimStart(s);
    var r := TrimEnd(t);
    assert r == s[|s| - |t|..|s| - |t| + |r|];
    r
  }

  /** The character-by-character rule of `str.title()`: a character that
      follows a cased character is lower-cased, any other is upper-cased. */
  function TitleFrom(s: string, afterCased: bool): (r: string)
    ensures |r| == |s|
  {
    if s == [] then []
    else [if afterCased then ToLower(s[0]) else ToUpper(s[0])] + TitleFrom(s[1..], IsCased(s[0]))
  }

  /** `str.title()`. */
  function Title(s: string): (r: string)
    ensures |r| == |s|
  {
    TitleFrom(s, false)
  }

  /** Title-casing changes letters only, so it keeps every character's
      letter-ness and whitespace-ness and leaves every other character alone. */
  lemma {:induction false} TitleFromKeepsKinds(s: string, afterCased: bool)
    ensures |TitleFrom(s, afterCased)| == |s|
    ensures forall i :: 0 <= i < |s| ==>
      IsCased(TitleFrom(s, afterCased)[i]) == IsCased(s[i])
      && IsSpace(TitleFrom(s, afterCased)[i]) == IsSpace(s[i])
      && (!IsCased(s[i]) ==> TitleFrom(s, afterCased)[i] == s[i])
  {
    if s != [] {
      TitleFromKeepsKinds(s[1..], IsCased(s[0]));
      var r := TitleFrom(s, afterCased);
      forall i | 0 <= i < |s|
        ensures IsCased(r[i]) == IsCased(s[i]) && IsSpace(r[i]) == IsSpace(s[i])
        ensures !IsCased(s[i]) ==> r[i] == s[i]
      {
        if i > 0 {
          assert r[i] == TitleFrom(s[1..], IsCased(s[0]))[i - 1];
        }
      }
    }
  }

  /** Title-casing an already title-cased string changes nothing. */
  lemma {:induction false} TitleFromIdempotent(s: string, afterCased: bool)
    ensures TitleFrom(TitleFrom(s, afterCased), afterCased) == TitleFrom(s, afterCased)
  {
    if s != [] {
      var t := TitleFrom(s, afterCased);
      assert t[1..] == TitleFrom(s[1..], IsCased(s[0]));
      assert IsCased(t[0]) == IsCased(s[0]);
      TitleFromIdempotent(s[1..], IsCased(s[0]));
    }
  }

  /** The normalisation of a category label: `.str.strip().str.title()`. */
  function NormalizeLabel(s: string): (r: string)
    ensures |r| <= |s|
  {
    Title(Strip(s))
  }

  /** A string that neither starts nor ends with whitespace is its own strip. */
  lemma StripOfTrimmed(s: string)
    requires s == [] || (!IsSpace(s[0]) && !IsSpace(s[|s| - 1]))
    ensures Strip(s) == s
  {
  }

  /** Normalising a label twice gives the same label as normalising it once. */
  lemma NormalizeLabelIdempotent(s: string)
    ensures NormalizeLabel(NormalizeLabel(s)) == NormalizeLabel(s)
  {
    var stripped := Strip(s);
    var titled := Title(stripped);
    TitleFromKeepsKinds(stripped, false);
    StripOfTrimmed(titled);
    TitleFromIdempotent(stripped, false);
  }

  function LowerCase(s: string): (r: string)
    ensures |r| == |s|
    ensures forall i :: 0 <= i < |s| ==> r[i] == ToLower(s[i])
  {
    if s == [] then [] else [ToLower(s[0])] + LowerCase(s[1..])
  }

  /** Whether needle occurs in text starting at position i. */
  predicate OccursAt(text: string, needle: string, i: int)
  {
    0 <= i <= |text| - |needle| && text[i..i + |needle|] == needle
  }

  /** Whether needle occurs anywhere in text. */
  function Contains(text: string, needle: string): (b: bool)
    ensures b <==> exists i :: OccursAt(text, needle, i)
  {
    if OccursAt(text, needle, 0) then true
    else if text == [] then false
    else
      var rest := Contains(text[1..], needle);
      assert forall i :: OccursAt(text[1..], needle, i) <==> OccursAt(text, needle, i + 1);
      assert forall i :: OccursAt(text, needle, i) ==> i == 0 || OccursAt(text[1..], needle, i - 1);
      rest
  }

  /** `str.contains(pattern, case=False)` for a pattern without regular
      expression syntax: a substring test that ignores ASCII case. */
  function ContainsIgnoringCase(text: string, pattern: string): (r: bool)
  {
    Contains(LowerCase(text), LowerCase(pattern))
  }
}
