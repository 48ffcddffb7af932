/**
 * The JavaScript string operations the engagement code relies on:
 * `trim()`, `slice(0, n)`, `split(sep)[0]`, `toLowerCase()` and `includes()`.
 * Strings are sequences of characters, and a character is one Unicode
 * scalar value. JavaScript counts UTF-16 code units instead, so lengths
 * and `slice` positions differ on characters outside the Basic
 * Multilingual Plane.
 */
module Text {

  /** The characters `String.prototype.trim` removes: the ECMAScript
      WhiteSpace and LineTerminator productions. */
  predicate IsWhite(c: char) {
    || c == ' ' || c == '\t' || c == '\n' || c == '\r'
    || c == '\U{000B}' || c == '\U{000C}' || c == '\U{00A0}' || c == '\U{1680}'
    || ('\U{2000}' <= c <= '\U{200A}')
    || c == '\U{2028}' || c == '\U{2029}' || c == '\U{202F}' || c == '\U{205F}'
    || c == '\U{3000}' || c == '\U{FEFF}'
  }

  /** Drops the leading white space. */
  function TrimStart(s: string): (r: string)
    ensures |r| <= |s| && r == s[|s| - |r|..]
    ensures forall i | 0 <= i < |s| - |r| :: IsWhite(s[i])
    ensures r != [] ==> !IsWhite(r[0])
  {
    if s != [] && IsWhite(s[0]) then TrimStart(s[1..]) else s
  }

  /** Drops the trailing white space. */
  function TrimEnd(s: string): (r: string)
    ensures |r| <= |s| && r == s[..|r|]
    ensures forall i | |r| <= i < |s| :: IsWhite(s[i])
    ensures r != [] ==> !IsWhite(r[|r| - 1])
  {
    if s != [] && IsWhite(s[|s| - 1]) then TrimEnd(s[..|s| - 1]) else s
  }

  /** Every character of `s` is white space. */
  predicate AllWhite(s: string) {
    forall i | 0 <= i < |s| :: IsWhite(s[i])
  }

  /** `r` sits in `s` at position `i`, with only white space around it. */
  predicate CutFrom(s: string, r: string, i: nat) {
    && i + |r| <= |s|
    && s[i..i + |r|] == r
    && AllWhite(s[..i])
    && AllWhite(s[i + |r|..])
  }

  /** `s.trim()`: the part of `s` left once white space is cut from both
      ends, which neither starts nor ends with white space. */
  function Trim(s: string): (r: string)
    ensures |r| <= |s|
    ensures exists i: nat :: CutFrom(s, r, i)
    ensures r != [] ==> !IsWhite(r[0]) && !IsWhite(r[|r| - 1])
  {
    TrimCut(s);
    TrimEnd(TrimStart(s))
  }

  /** Where `Trim` cuts: after the leading white space of `s`, before the
      trailing white space of what is left. */
  lemma TrimCut(s: string)
    ensures var t := TrimStart(s);
            var r := TrimEnd(t);
            && CutFrom(s, r, |s| - |t|)
            && (r != [] ==> r[0] == t[0])
  {
    var t := TrimStart(s);
    var r := TrimEnd(t);
    var i := |s| - |t|;
    assert s[i..i + |r|] == t[..|r|];
    var tail := s[i + |r|..];
    assert tail == t[|r|..];
    forall k | 0 <= k < |tail|
      ensures IsWhite(tail[k])
    {
      assert tail[k] == t[|r| + k];
    }
  }

  /** `!s.trim()`: the string is empty once trimmed. */
  predicate IsBlank(s: string) {
    Trim(s) == []
  }

  /** A string is blank exactly when every character of it is white space. */
  lemma BlankIffAllWhite(s: string)
    ensures IsBlank(s) <==> forall i | 0 <= i < |s| :: IsWhite(s[i])
  {
    var t := TrimStart(s);
    if t != [] {
      assert TrimEnd(t)[0] == t[0] || TrimEnd(t) == [];
    }
  }

  /** `s.slice(0, n)`: at most the first `n` characters. */
  function Take(s: string, n: nat): (r: string)
    ensures |r| == if |s| <= n then |s| else n
    ensures r == s[..|r|]
  {
    if |s| <= n then s else s[..n]
  }

  /** `s.split(sep)[0]`: everything before the first `sep`, or all of `s`. */
  function FirstField(s: string, sep: char): (r: string)
    ensures |r| <= |s| && r == s[..|r|]
    ensures sep !in r
    ensures |r| < |s| ==> s[|r|] == sep
  {
    if s == [] then []
    else if s[0] == sep then []
    else
      var rest := FirstField(s[1..], sep);
      assert s[..|rest| + 1] == [s[0]] + s[1..][..|rest|];
      [s[0]] + rest
  }

  /** `toLowerCase()` on one character; only the ASCII letters are mapped. */
  function LowerChar(c: char): char {
    if 'A' <= c <= 'Z' then (c as int + 32) as char else c
  }

  /** `s.toLowerCase()`: no upper-case ASCII letter is left, and every
      other character is kept. */
  function Lower(s: string): (r: string)
    ensures |r| == |s|
    ensures forall i | 0 <= i < |r| :: !('A' <= r[i] <= 'Z')
    ensures forall i | 0 <= i < |s| :: 'A' <= s[i] <= 'Z' || r[i] == s[i]
    ensures forall i | 0 <= i < |s| :: 'A' <= s[i] <= 'Z' ==> r[i] as int == s[i] as int + 32
  {
    seq(|s|, i requires 0 <= i < |s| => LowerChar(s[i]))
  }

  /** Lower-casing twice changes nothing more. */
  lemma LowerIdempotent(s: string)
    ensures Lower(Lower(s)) == Lower(s)
  {
  }

  /** `hay.includes(needle)`, scanning start positions from the left: it
      holds exactly when `needle` starts at some position of `hay`. */
  function Contains(hay: string, needle: string): (r: bool)
    ensures r <==> exists i | 0 <= i <= |hay| - |needle| :: needle <= hay[i..]
    ensures needle == [] ==> r
    ensures r ==> |needle| <= |hay|
    decreases |hay|
  {
    if needle <= hay then
      assert needle <= hay[0..];
      true
    else if hay == [] then
      false
    else
      var rest := Contains(hay[1..], needle);
      assert forall i | 1 <= i <= |hay| :: hay[1..][i - 1..] == hay[i..];
      rest
  }
}
