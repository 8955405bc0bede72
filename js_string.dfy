/**
 * The JavaScript string operations the pipeline relies on: `trim`,
 * `toLowerCase`, `startsWith` and the falsy fallback `a || b` on strings.
 */
module JsString {

  /** The characters `String.prototype.trim` strips: ECMAScript's WhiteSpace
      (tab, vertical tab, form feed, space, no-break space, the zero-width
      no-break space and every Zs space separator) and LineTerminator. */
  predicate IsSpace(c: char) {
    || c == '\t' || c == '\n' || c == '\U{000B}' || c == '\U{000C}' || c == '\r'
    || c == ' ' || c == '\U{00A0}' || c == '\U{1680}'
    || ('\U{2000}' <= c <= '\U{200A}')
    || c == '\U{2028}' || c == '\U{2029}' || c == '\U{202F}' || c == '\U{205F}'
    || c == '\U{3000}' || c == '\U{FEFF}'
  }

  predicate AllSpace(s: string) {
    forall k :: 0 <= k < |s| ==> IsSpace(s[k])
  }

  /** Neither end of `s` is a space: what `trim` leaves behind. */
  predicate IsTrimmed(s: string) {
    s == [] || (!IsSpace(s[0]) && !IsSpace(s[|s| - 1]))
  }

  /** Drops the leading spaces. */
  function TrimStart(s: string): (r: string)
    ensures r == [] || !IsSpace(r[0])
  {
    if s != [] && IsSpace(s[0]) then TrimStart(s[1..]) else s
  }

  /** Drops the trailing spaces. */
  function TrimEnd(s: string): (r: string)
    ensures r == [] || !IsSpace(r[|r| - 1])
  {
    if s != [] && IsSpace(s[|s| - 1]) then TrimEnd(s[..|s| - 1]) else s
  }

  /** `TrimStart` returns the suffix of `s` left after its longest all-space prefix. */
  lemma {:induction false} TrimStartSuffix(s: string)
    ensures var r := TrimStart(s);
            |r| <= |s| && r == s[|s| - |r|..] && AllSpace(s[..|s| - |r|])
  {
    if s != [] && IsSpace(s[0]) {
      TrimStartSuffix(s[1..]);
      var r := TrimStart(s);
      assert s[1..][..|s| - 1 - |r|] == s[1..|s| - |r|];
    }
  }

  /** `TrimEnd` returns the prefix of `s` left before its longest all-space suffix. */
  lemma {:induction false} TrimEndPrefix(s: string)
    ensures var r := TrimEnd(s);
            |r| <= |s| && r == s[..|r|] && AllSpace(s[|r|..])
  {
    if s != [] && IsSpace(s[|s| - 1]) {
      TrimEndPrefix(s[..|s| - 1]);
    }
  }

  /** `s.trim()` */
  function Trim(s: string): (r: string)
    ensures IsTrimmed(r)
  {
    var t := TrimStart(s);
    TrimEndPrefix(t);
    TrimEnd(t)
  }

  /** `trim` keeps the middle of `s`: the result is the slice of `s` between
      a leading and a trailing run of spaces. */
  lemma TrimIsInfix(s: string)
    ensures var a := |s| - |TrimStart(s)|;
            var b := a + |Trim(s)|;
            && 0 <= a <= b <= |s|
            && Trim(s) == s[a..b]
            && AllSpace(s[..a]) && AllSpace(s[b..])
  {
    var t := TrimStart(s);
    TrimStartSuffix(s);
    TrimEndPrefix(t);
    var a := |s| - |t|;
    var b := a + |Trim(s)|;
    assert t == s[a..];
    assert Trim(s) == t[..b - a] == s[a..b];
    assert s[b..] == t[b - a..];
  }

  /** Trimming an already trimmed string changes nothing, so `trim` is idempotent. */
  lemma TrimOfTrimmed(s: string)
    requires IsTrimmed(s)
    ensures Trim(s) == s
  {
    assert TrimStart(s) == s;
    assert TrimEnd(s) == s;
  }

  /** `trim` yields the empty string exactly for strings made only of spaces. */
  lemma TrimEmptyIffAllSpace(s: string)
    ensures Trim(s) == "" <==> AllSpace(s)
  {
    var t := TrimStart(s);
    TrimStartSuffix(s);
    TrimEndPrefix(t);
    if t == [] {
      assert s[..|s|] == s;
    } else {
      assert !IsSpace(s[|s| - |t|]);
      assert TrimEnd(t) != [];
    }
  }

  /** `toLowerCase` on one character, for ASCII `A`-`Z` and the Latin-1
      capitals U+00C0..U+00DE (except the multiplication sign U+00D7). */
  function LowerChar(c: char): (d: char)
    ensures IsSpace(d) <==> IsSpace(c)
  {
    if 'A' <= c <= 'Z' || ('\U{00C0}' <= c <= '\U{00DE}' && c != '\U{00D7}')
    then (c as int + 32) as char
    else c
  }

  /** `s.toLowerCase()`, character by character. */
  function ToLower(s: string): (r: string)
    ensures |r| == |s|
  {
    if s == [] then [] else [LowerChar(s[0])] + ToLower(s[1..])
  }

  /** Each character of the lower-cased string is its source character lower-cased. */
  lemma {:induction false} ToLowerAt(s: string, k: nat)
    requires k < |s|
    ensures ToLower(s)[k] == LowerChar(s[k])
  {
    if k > 0 {
      ToLowerAt(s[1..], k - 1);
    }
  }

  /** Lower-casing never turns a space into a non-space or back, so it keeps
      a string trimmed exactly when it was. */
  lemma ToLowerKeepsTrimmed(s: string)
    ensures IsTrimmed(ToLower(s)) <==> IsTrimmed(s)
  {
    if s != [] {
      ToLowerAt(s, 0);
      ToLowerAt(s, |s| - 1);
    }
  }

  /** `s.startsWith(p)` */
  predicate StartsWith(s: string, p: string) {
    |p| <= |s| && s[..|p|] == p
  }

  /** `a || b` for two strings: the empty string is JavaScript's only falsy string. */
  function Or(a: string, b: string): (r: string)
    ensures r == "" <==> a == "" && b == ""
    ensures a != "" ==> r == a
    ensures a == "" ==> r == b
  {
    if a != "" then a else b
  }
}
