/** Character and string primitives of Python's `str` as the model needs
    them: whitespace, `lower()`, `strip()`, the `in` operator on strings and
    the lexicographic order used by `sorted` and by SQLite's BINARY
    collation. */
module Text {

  /** The characters for which Python's `str.isspace()` holds: `str.strip()`
      removes them from both ends and the regular-expression class `\s`
      matches them. */
  predicate IsSpace(c: char) {
    || c == ' '
    || ('\t' <= c <= '\r')
    || ('\U{1C}' <= c <= '\U{1F}')
    || c == '\U{85}' || c == '\U{A0}' || c == '\U{1680}'
    || ('\U{2000}' <= c <= '\U{200A}')
    || c == '\U{2028}' || c == '\U{2029}' || c == '\U{202F}' || c == '\U{205F}'
    || c == '\U{3000}'
  }

  predicate IsUpperAscii(c: char) {
    'A' <= c <= 'Z'
  }

  /** Lower-casing of one character, restricted to ASCII letters. */
  function LowerChar(c: char): char {
    if IsUpperAscii(c) then (c as int + 32) as char else c
  }

  /** `s.lower()` (ASCII letters only; every other character is kept). */
  function Lower(s: string): string {
    seq(|s|, i requires 0 <= i < |s| => LowerChar(s[i]))
  }

  lemma LowerIdempotent(s: string)
    ensures Lower(Lower(s)) == Lower(s)
  {
  }

  lemma LowerConcat(a: string, b: string)
    ensures Lower(a + b) == Lower(a) + Lower(b)
  {
  }

  /** Drops the leading whitespace. */
  function TrimStart(s: string): (r: string)
    ensures |r| <= |s|
  {
    if s != [] && IsSpace(s[0]) then TrimStart(s[1..]) else s
  }

  /** Drops the trailing whitespace. */
  function TrimEnd(s: string): (r: string)
    ensures |r| <= |s|
  {
    if s != [] && IsSpace(s[|s| - 1]) then TrimEnd(s[..|s| - 1]) else s
  }

  lemma {:induction false} TrimStartShape(s: string)
    ensures TrimStart(s) == s[|s| - |TrimStart(s)|..]
    ensures forall i :: 0 <= i < |s| - |TrimStart(s)| ==> IsSpace(s[i])
    ensures TrimStart(s) == [] || !IsSpace(TrimStart(s)[0])
  {
    if s != [] && IsSpace(s[0]) {
      TrimStartShape(s[1..]);
    }
  }

  lemma {:induction false} TrimEndShape(s: string)
    ensures TrimEnd(s) == s[..|TrimEnd(s)|]
    ensures forall i :: |TrimEnd(s)| <= i < |s| ==> IsSpace(s[i])
    ensures TrimEnd(s) == [] || !IsSpace(TrimEnd(s)[|TrimEnd(s)| - 1])
  {
    if s != [] && IsSpace(s[|s| - 1]) {
      TrimEndShape(s[..|s| - 1]);
    }
  }

  /** `s.strip()`. */
  function Strip(s: string): string {
    TrimEnd(TrimStart(s))
  }

  /** `strip()` keeps one contiguous block of `s`, starting at `off`, and
      everything it drops is whitespace; what it keeps neither starts nor
      ends with whitespace. */
  lemma {:induction false} StripShape(s: string) returns (off: nat)
    ensures off + |Strip(s)| <= |s|
    ensures Strip(s) == s[off..off + |Strip(s)|]
    ensures forall i :: 0 <= i < off ==> IsSpace(s[i])
    ensures forall i :: off + |Strip(s)| <= i < |s| ==> IsSpace(s[i])
    ensures Strip(s) == [] || (!IsSpace(Strip(s)[0]) && !IsSpace(Strip(s)[|Strip(s)| - 1]))
  {
    var t := TrimStart(s);
    TrimStartShape(s);
    TrimEndShape(t);
    off := |s| - |t|;
    var r := TrimEnd(t);
    assert r == s[off..][..|r|];
    SliceOfSlice(s, off, |s|, 0, |r|);
    assert r == [] || r[0] == t[0];
    forall i | off + |r| <= i < |s|
      ensures IsSpace(s[i])
    {
      assert s[i] == t[i - off];
    }
  }

  /** A string strips to nothing exactly when it is all whitespace. */
  lemma StripEmptyIffBlank(s: string)
    ensures Strip(s) == [] <==> forall i :: 0 <= i < |s| ==> IsSpace(s[i])
  {
    var off := StripShape(s);
  }

  lemma LowerCharSpace(c: char)
    ensures IsSpace(LowerChar(c)) == IsSpace(c)
  {
  }

  lemma {:induction false} TrimStartLower(s: string)
    ensures TrimStart(Lower(s)) == Lower(TrimStart(s))
  {
    if s != [] {
      assert Lower(s)[1..] == Lower(s[1..]);
      LowerCharSpace(s[0]);
      if IsSpace(s[0]) {
        TrimStartLower(s[1..]);
      }
    }
  }

  lemma {:induction false} TrimEndLower(s: string)
    ensures TrimEnd(Lower(s)) == Lower(TrimEnd(s))
  {
    if s != [] {
      assert Lower(s)[..|s| - 1] == Lower(s[..|s| - 1]);
      LowerCharSpace(s[|s| - 1]);
      if IsSpace(s[|s| - 1]) {
        TrimEndLower(s[..|s| - 1]);
      }
    }
  }

  /** Stripping and lower-casing commute, so `s.strip().lower()` and
      `s.lower().strip()` agree. */
  lemma {:induction false} StripLower(s: string)
    ensures Strip(Lower(s)) == Lower(Strip(s))
  {
    TrimStartLower(s);
    TrimEndLower(TrimStart(s));
  }

  /** Python's `needle in hay` on strings: `needle` occurs in `hay` as a
      contiguous block (the empty string occurs everywhere). */
  predicate Contains(hay: string, needle: string) {
    exists i :: 0 <= i <= |hay| - |needle| && OccursAt(hay, needle, i)
  }

  /** `needle` is the block of `hay` that starts at index `i`. */
  predicate OccursAt(hay: string, needle: string, i: int) {
    0 <= i && i + |needle| <= |hay| && hay[i..i + |needle|] == needle
  }

  lemma ContainsAt(hay: string, needle: string, i: nat)
    requires OccursAt(hay, needle, i)
    ensures Contains(hay, needle)
  {
  }

  lemma ContainsIndex(hay: string, needle: string) returns (i: nat)
    requires Contains(hay, needle)
    ensures OccursAt(hay, needle, i)
  {
    i :| 0 <= i <= |hay| - |needle| && OccursAt(hay, needle, i);
  }

  lemma ContainsFirstChar(hay: string, needle: string)
    requires Contains(hay, needle) && needle != []
    ensures needle[0] in hay
  {
    var i := ContainsIndex(hay, needle);
    assert hay[i] == hay[i..i + |needle|][0];
  }

  /** Every character of a contained string occurs in the container. */
  lemma ContainsChar(hay: string, needle: string, j: nat)
    requires Contains(hay, needle) && j < |needle|
    ensures needle[j] in hay
  {
    var i := ContainsIndex(hay, needle);
    assert hay[i + j] == hay[i..i + |needle|][j];
  }

  lemma SliceOfSlice(s: string, a: nat, b: nat, i: nat, j: nat)
    requires a <= b <= |s| && i <= j <= b - a
    ensures s[a..b][i..j] == s[a + i..a + j]
  {
    forall k | 0 <= k < j - i
      ensures s[a..b][i..j][k] == s[a + i..a + j][k]
    {
    }
  }

  /** Text added around a string does not hide what it contains. */
  lemma {:induction false} ContainsWithin(pre: string, hay: string, post: string, needle: string)
    requires Contains(hay, needle)
    ensures Contains(pre + hay + post, needle)
  {
    var i := ContainsIndex(hay, needle);
    assert (pre + hay + post)[|pre| + i..|pre| + i + |needle|] == hay[i..i + |needle|];
    ContainsAt(pre + hay + post, needle, |pre| + i);
  }

  /** Whatever the stripped string contains, the string contains. */
  lemma {:induction false} ContainsFromStrip(s: string, needle: string)
    requires Contains(Strip(s), needle)
    ensures Contains(s, needle)
  {
    var r := Strip(s);
    var i := ContainsIndex(r, needle);
    var off := StripShape(s);
    SliceOfSlice(s, off, off + |r|, i, i + |needle|);
    ContainsAt(s, needle, off + i);
  }

  /** `r` is the block of `s` at `off`, and everything around it is
      whitespace: the shape `StripShape` gives `strip()`. */
  ghost predicate KeptBlock(s: string, r: string, off: nat) {
    && off + |r| <= |s|
    && r == s[off..off + |r|]
    && (forall j :: 0 <= j < off ==> IsSpace(s[j]))
    && (forall j :: off + |r| <= j < |s| ==> IsSpace(s[j]))
  }

  lemma ContainsInKeptBlock(s: string, r: string, off: nat, needle: string)
    requires KeptBlock(s, r, off) && Contains(s, needle)
    requires needle != [] && !IsSpace(needle[0]) && !IsSpace(needle[|needle| - 1])
    ensures Contains(r, needle)
  {
    var i := ContainsIndex(s, needle);
    assert s[i] == s[i..i + |needle|][0];
    assert s[i + |needle| - 1] == s[i..i + |needle|][|needle| - 1];
    assert off <= i;
    assert i + |needle| <= off + |r|;
    SliceOfSlice(s, off, off + |r|, i - off, i - off + |needle|);
    ContainsAt(r, needle, i - off);
  }

  /** A block that neither starts nor ends with whitespace survives
      `strip()`. */
  lemma {:induction false} ContainsThroughStrip(s: string, needle: string)
    requires Contains(s, needle)
    requires needle != [] && !IsSpace(needle[0]) && !IsSpace(needle[|needle| - 1])
    ensures Contains(Strip(s), needle)
  {
    var off := StripShape(s);
    ContainsInKeptBlock(s, Strip(s), off, needle);
  }

  /** `a <= b` on Python strings and under SQLite's BINARY collation: code
      point by code point, a proper prefix first. */
  predicate LexLe(a: string, b: string) {
    a == [] || (b != [] && (a[0] < b[0] || (a[0] == b[0] && LexLe(a[1..], b[1..]))))
  }

  lemma LexLeTotal(a: string, b: string)
    ensures LexLe(a, b) || LexLe(b, a)
  {
  }

  lemma LexLeTransitive(a: string, b: string, c: string)
    requires LexLe(a, b) && LexLe(b, c)
    ensures LexLe(a, c)
  {
  }

  lemma LexLeAntisymmetric(a: string, b: string)
    requires LexLe(a, b) && LexLe(b, a)
    ensures a == b
  {
  }
}
