/** Small string vocabulary shared by the PromptBox model: an Option type (the
    source's `null`), the characters JavaScript's `String.prototype.trim`
    removes, trimming, and suffix/prefix tests. */
module Strings {

  datatype Option<+T> = None | Some(value: T)

  /** ECMAScript WhiteSpace and LineTerminator code points: exactly what
      `trim()` strips from both ends of a string. */
  predicate IsJsSpace(c: char) {
    c == '\t' || c == '\n' || c == '\U{000B}' || c == '\U{000C}' || c == '\r'
    || c == ' ' || c == '\U{00A0}' || c == '\U{1680}'
    || ('\U{2000}' <= c <= '\U{200A}')
    || c == '\U{2028}' || c == '\U{2029}' || c == '\U{202F}' || c == '\U{205F}'
    || c == '\U{3000}' || c == '\U{FEFF}'
  }

  predicate IsAsciiLetter(c: char) {
    ('a' <= c <= 'z') || ('A' <= c <= 'Z')
  }

  /** Drops leading white space: the result is the suffix of `s` that starts
      at its first non-space character. */
  function TrimStart(s: string): (r: string)
    ensures |r| <= |s| && r == s[|s| - |r|..]
    ensures r == [] || !IsJsSpace(r[0])
    ensures forall i :: 0 <= i < |s| - |r| ==> IsJsSpace(s[i])
  {
    if s != [] && IsJsSpace(s[0]) then TrimStart(s[1..]) else s
  }

  /** Drops trailing white space: the result is the prefix of `s` that ends
      at its last non-space character. */
  function TrimEnd(s: string): (r: string)
    ensures |r| <= |s| && r == s[..|r|]
    ensures r == [] || !IsJsSpace(r[|r| - 1])
    ensures forall i :: |r| <= i < |s| ==> IsJsSpace(s[i])
  {
    if s != [] && IsJsSpace(s[|s| - 1]) then TrimEnd(s[..|s| - 1]) else s
  }

  /** `s.trim()`. */
  function Trim(s: string): (r: string)
    ensures |r| <= |s|
    ensures r == [] || (!IsJsSpace(r[0]) && !IsJsSpace(r[|r| - 1]))
    ensures (s == [] || (!IsJsSpace(s[0]) && !IsJsSpace(s[|s| - 1]))) ==> r == s
  {
    TrimEnd(TrimStart(s))
  }

  /** `trim` keeps a middle slice of `s` and removes only white space
      around it. */
  lemma TrimMiddle(s: string)
    ensures exists a, b :: 0 <= a <= b <= |s| && Trim(s) == s[a..b]
                           && (forall i :: 0 <= i < a ==> IsJsSpace(s[i]))
                           && (forall i :: b <= i < |s| ==> IsJsSpace(s[i]))
  {
    var t := TrimStart(s);
    var u := TrimEnd(t);
    TrimSlice(s, t, u);
    var a := |s| - |t|;
    assert Trim(s) == s[a..a + |u|];
  }

  /** Witnesses for `Trim`'s middle slice. */
  lemma TrimSlice(s: string, t: string, u: string)
    requires |t| <= |s| && t == s[|s| - |t|..]
    requires forall i :: 0 <= i < |s| - |t| ==> IsJsSpace(s[i])
    requires |u| <= |t| && u == t[..|u|]
    requires forall j :: |u| <= j < |t| ==> IsJsSpace(t[j])
    ensures var a := |s| - |t|;
            && 0 <= a <= a + |u| <= |s| && u == s[a..a + |u|]
            && (forall i :: 0 <= i < a ==> IsJsSpace(s[i]))
            && (forall i :: a + |u| <= i < |s| ==> IsJsSpace(s[i]))
  {
    MiddleSlice(s, t, u);
    SpacesAfter(s, t, u);
  }

  /** A prefix of a suffix of `s` is a slice of `s`. */
  lemma MiddleSlice(s: string, t: string, u: string)
    requires |t| <= |s| && t == s[|s| - |t|..]
    requires |u| <= |t| && u == t[..|u|]
    ensures u == s[|s| - |t|..|s| - |t| + |u|]
  {
  }

  /** White space at the end of a suffix of `s` is white space of `s`. */
  lemma SpacesAfter(s: string, t: string, u: string)
    requires |t| <= |s| && t == s[|s| - |t|..]
    requires |u| <= |t| && forall j :: |u| <= j < |t| ==> IsJsSpace(t[j])
    ensures forall i :: |s| - |t| + |u| <= i < |s| ==> IsJsSpace(s[i])
  {
    var a := |s| - |t|;
    forall i | a + |u| <= i < |s| ensures IsJsSpace(s[i]) {
      assert s[i] == t[i - a];
    }
  }

  /** Trimming twice trims no more than once. */
  lemma TrimTwice(s: string)
    ensures Trim(Trim(s)) == Trim(s)
  {
    var r := Trim(s);
    assert r == [] || (!IsJsSpace(r[0]) && !IsJsSpace(r[|r| - 1]));
  }

  /** `s.endsWith(suffix)`. */
  predicate EndsWith(s: string, suffix: string) {
    |suffix| <= |s| && s[|s| - |suffix|..] == suffix
  }

  /** `s.startsWith(p)`. */
  predicate StartsWith(s: string, p: string) {
    |p| <= |s| && s[..|p|] == p
  }
}
