/**
 * The byte-string operations the C backend relies on: NUL termination,
 * `strncpy` into a fixed buffer, `tolower` in the "C" locale and `strcmp`.
 * A C string is modelled as a sequence of characters, one per byte.
 */
module CStrings {

  /** What a character buffer holds as a C string: everything before the first NUL. */
  function CStr(s: seq<char>): (r: seq<char>)
    ensures '\0' !in r
    ensures r <= s
    ensures |r| < |s| ==> s[|r|] == '\0'
  {
    if s == [] || s[0] == '\0' then [] else [s[0]] + CStr(s[1..])
  }

  /** `strncpy(dst, s, n)` followed by `dst[n] = '\0'`: at most the first `n` characters survive. */
  function Prefix(s: seq<char>, n: nat): (r: seq<char>)
    ensures r <= s
    ensures |r| == if |s| <= n then |s| else n
  {
    if |s| <= n then s else s[..n]
  }

  predicate IsUpper(c: char)
  {
    'A' <= c <= 'Z'
  }

  /** `tolower` in the "C" locale: only 'A'..'Z' change. */
  function ToLower(c: char): char
  {
    if IsUpper(c) then (c as int + ('a' as int - 'A' as int)) as char else c
  }

  /** The in-place `for (i = 0; s[i]; i++) s[i] = tolower(s[i])` loop, on a C string. */
  function LowerAll(s: seq<char>): (r: seq<char>)
    ensures |r| == |s|
    ensures forall i :: 0 <= i < |s| ==> r[i] == ToLower(s[i])
    ensures forall i :: 0 <= i < |s| ==> !IsUpper(r[i])
  {
    if s == [] then [] else [ToLower(s[0])] + LowerAll(s[1..])
  }

  /** Strings put end to end: the file `fgets` reads in chunks, and Python's `"".join`. */
  function Join(ts: seq<seq<char>>): seq<char>
  {
    if ts == [] then [] else ts[0] + Join(ts[1..])
  }

  /** `strcmp(a, b) < 0`: lexicographic order on character codes, a proper prefix first. */
  predicate StrLess(a: seq<char>, b: seq<char>)
  {
    b != [] && (a == [] || a[0] < b[0] || (a[0] == b[0] && StrLess(a[1..], b[1..])))
  }

  lemma {:induction false} StrLessIrreflexive(a: seq<char>)
    ensures !StrLess(a, a)
  {
    if a != [] {
      StrLessIrreflexive(a[1..]);
    }
  }

  lemma {:induction false} StrLessTransitive(a: seq<char>, b: seq<char>, c: seq<char>)
    requires StrLess(a, b) && StrLess(b, c)
    ensures StrLess(a, c)
  {
    if a != [] && a[0] == b[0] && b[0] == c[0] {
      StrLessTransitive(a[1..], b[1..], c[1..]);
    }
  }

  /** `strcmp` decides every pair: it is zero only on equal strings. */
  lemma {:induction false} StrLessTotal(a: seq<char>, b: seq<char>)
    requires a != b
    ensures StrLess(a, b) || StrLess(b, a)
  {
    if a != [] && b != [] && a[0] == b[0] {
      assert a == [a[0]] + a[1..] && b == [b[0]] + b[1..];
      StrLessTotal(a[1..], b[1..]);
    }
  }
}
