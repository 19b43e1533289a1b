/** The three `java.lang.String` operations the use cases rely on:
    `trim()`, `isBlank()` and `toUpperCase(Locale.ROOT)`. */
module JavaStrings {

  /** `String.trim()` strips every code point up to and including U+0020 (space),
      not just what Java calls whitespace. */
  predicate IsTrimmed(c: char) {
    c <= ' '
  }

  predicate AllTrimmed(s: string) {
    forall i :: 0 <= i < |s| ==> IsTrimmed(s[i])
  }

  /** Neither end of `s` is a character that `trim()` would strip. */
  predicate HasSolidEnds(s: string) {
    s == [] || (!IsTrimmed(s[0]) && !IsTrimmed(s[|s| - 1]))
  }

  function TrimStart(s: string): (r: string)
    ensures |r| <= |s| && r == s[|s| - |r|..]
    ensures AllTrimmed(s[..|s| - |r|])
    ensures r == [] || !IsTrimmed(r[0])
  {
    if s != [] && IsTrimmed(s[0]) then TrimStart(s[1..]) else s
  }

  function TrimEnd(s: string): (r: string)
    ensures |r| <= |s| && r == s[..|r|]
    ensures AllTrimmed(s[|r|..])
    ensures r == [] || !IsTrimmed(r[|r| - 1])
  {
    if s != [] && IsTrimmed(s[|s| - 1]) then TrimEnd(s[..|s| - 1]) else s
  }

  /** `String.trim()`: neither end of the result can be stripped, every character of
      it comes from `s`, and it is empty exactly when all of `s` is strippable.
      `TrimIsInfix` places it inside `s`. */
  function Trim(s: string): (r: string)
    ensures |r| <= |s|
    ensures HasSolidEnds(r)
    ensures forall c :: c in r ==> c in s
    ensures r == [] <==> AllTrimmed(s)
  {
    var t := TrimStart(s);
    var r := TrimEnd(t);
    InnerSlice(s, |s| - |t|, t, r);
    SolidSlice(s, |s| - |t|, r);
    r
  }

  /** `trim()` returns `s` minus a prefix and a suffix of strippable characters: the
      result is the slice of `s` that starts where `TrimStart` stops. */
  lemma TrimIsInfix(s: string)
    ensures var r := Trim(s); var k := |s| - |TrimStart(s)|;
      && k + |r| <= |s|
      && r == s[k..k + |r|]
      && AllTrimmed(s[..k]) && AllTrimmed(s[k + |r|..])
  {
    var t := TrimStart(s);
    InnerSlice(s, |s| - |t|, t, TrimEnd(t));
  }

  /** A prefix `r` of the suffix `t == s[k..]` is the slice `s[k..k + |r|]`, and what
      follows it in `t` is what follows it in `s`. */
  lemma InnerSlice(s: string, k: nat, t: string, r: string)
    requires k <= |s| && t == s[k..]
    requires |r| <= |t| && r == t[..|r|]
    ensures k + |r| <= |s|
    ensures r == s[k..k + |r|]
    ensures t[|r|..] == s[k + |r|..]
  {
  }

  /** If only strippable characters surround the slice `s[k..k + |r|]` and its ends are
      solid, it is empty exactly when all of `s` is strippable, and it draws its
      characters from `s`. */
  lemma SolidSlice(s: string, k: nat, r: string)
    requires k + |r| <= |s| && r == s[k..k + |r|]
    requires AllTrimmed(s[..k]) && AllTrimmed(s[k + |r|..])
    requires HasSolidEnds(r)
    ensures forall c :: c in r ==> c in s
    ensures r == [] <==> AllTrimmed(s)
  {
    if r == [] {
      forall i | 0 <= i < |s| ensures IsTrimmed(s[i]) {
        if i >= k {
          assert s[i] == s[k..][i - k];
        } else {
          assert s[i] == s[..k][i];
        }
      }
    } else {
      assert r[0] == s[k];
    }
  }

  /** Trimming removes exactly the padding: `trim(p + t + q) == t` whenever `p` and `q`
      consist of strippable characters and `t` has solid ends. */
  lemma {:induction false} TrimRemovesPadding(p: string, t: string, q: string)
    requires AllTrimmed(p) && AllTrimmed(q) && HasSolidEnds(t)
    ensures Trim(p + t + q) == t
  {
    if t == [] {
      assert p + t + q == p + q;
      assert AllTrimmed(p + q) by {
        forall i | 0 <= i < |p + q| ensures IsTrimmed((p + q)[i]) {
          if i >= |p| {
            assert (p + q)[i] == q[i - |p|];
          }
        }
      }
    } else {
      var u := p + t + q;
      assert u == p + (t + q);
      assert TrimStart(u) == t + q by {
        TrimStartRemovesPrefix(p, t + q);
      }
      assert TrimEnd(t + q) == t by {
        TrimEndRemovesSuffix(t, q);
      }
      assert Trim(u) == TrimEnd(TrimStart(u));
    }
  }

  lemma {:induction false} TrimStartRemovesPrefix(p: string, u: string)
    requires AllTrimmed(p)
    requires u == [] || !IsTrimmed(u[0])
    ensures TrimStart(p + u) == u
    decreases |p|
  {
    if p != [] {
      assert (p + u)[1..] == p[1..] + u;
      TrimStartRemovesPrefix(p[1..], u);
    }
  }

  lemma {:induction false} TrimEndRemovesSuffix(t: string, q: string)
    requires AllTrimmed(q)
    requires t != [] && !IsTrimmed(t[|t| - 1])
    ensures TrimEnd(t + q) == t
    decreases |q|
  {
    if q != [] {
      assert (t + q)[..|t + q| - 1] == t + q[..|q| - 1];
      TrimEndRemovesSuffix(t, q[..|q| - 1]);
    } else {
      assert t + q == t;
    }
  }

  /** `Character.isWhitespace`, the test behind `String.isBlank()`: the ASCII controls
      U+0009..U+000D and U+001C..U+001F, and the Unicode space, line and paragraph
      separators except the three non-breaking ones (U+00A0, U+2007, U+202F). */
  predicate IsJavaWhitespace(c: char) {
    var n := c as int;
    || (0x09 <= n <= 0x0D) || (0x1C <= n <= 0x20)
    || n == 0x1680 || (0x2000 <= n <= 0x2006) || (0x2008 <= n <= 0x200A)
    || n == 0x2028 || n == 0x2029 || n == 0x205F || n == 0x3000
  }

  /** `String.isBlank()`: empty, or whitespace only. The empty string and a run of
      spaces are blank, and a blank string has no letter for upper-casing to change. */
  function IsBlank(s: string): (b: bool)
    ensures s == [] ==> b
    ensures (forall i :: 0 <= i < |s| ==> s[i] == ' ') ==> b
    ensures b ==> ToUpper(s) == s
  {
    forall i :: 0 <= i < |s| ==> IsJavaWhitespace(s[i])
  }

  predicate IsAsciiLower(c: char) {
    'a' <= c <= 'z'
  }

  function UpperChar(c: char): char {
    if IsAsciiLower(c) then (c as int - 32) as char else c
  }

  /** `toUpperCase(Locale.ROOT)`, restricted to the ASCII letters: each character is
      mapped on its own, so the length never changes; `UpperCasing` says what
      happens to each character. */
  function ToUpper(s: string): (r: string)
    ensures |r| == |s|
  {
    seq(|s|, i requires 0 <= i < |s| => UpperChar(s[i]))
  }

  /** Upper-casing turns each lower-case letter into its capital, keeps every other
      character, and leaves no lower-case letter behind. */
  lemma UpperCasing(s: string)
    ensures forall i :: 0 <= i < |s| ==> !IsAsciiLower(ToUpper(s)[i])
    ensures forall i :: 0 <= i < |s| && !IsAsciiLower(s[i]) ==> ToUpper(s)[i] == s[i]
    ensures forall i :: 0 <= i < |s| && IsAsciiLower(s[i]) ==>
              ToUpper(s)[i] as int == s[i] as int - 32
  {
  }
}
