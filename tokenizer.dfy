/**
 * The tokenizer of `check_sentence`: `re.findall(r"(\w+|[^\w\s]+|\s+)", text)`
 * applied to `text.strip()`. At each position the first alternative whose class
 * holds the next character wins, and it then takes the longest run of its class.
 */
module Tokenizer {
  import opened CStrings
  import opened CharClasses

  datatype Kind = Word | Punct | Space

  /** The alternative that matches at a character: `\w+`, else `[^\w\s]+`, else `\s+`. */
  function KindOf(cc: Classes, c: char): Kind
  {
    if cc.isWord(c) then Word else if !cc.isSpace(c) then Punct else Space
  }

  /** The characters an alternative's run may continue over. */
  predicate InClass(cc: Classes, k: Kind, c: char)
  {
    match k
    case Word => cc.isWord(c)
    case Punct => !cc.isWord(c) && !cc.isSpace(c)
    case Space => cc.isSpace(c)
  }

  lemma KindOfInClass(cc: Classes, c: char)
    ensures InClass(cc, KindOf(cc, c), c)
  {
  }

  /** The length of the greedy match of one alternative at the start of `s`. */
  function RunLength(cc: Classes, k: Kind, s: seq<char>): (n: nat)
    ensures n <= |s|
    ensures forall i :: 0 <= i < n ==> InClass(cc, k, s[i])
    ensures n < |s| ==> !InClass(cc, k, s[n])
  {
    if s == [] || !InClass(cc, k, s[0]) then 0 else 1 + RunLength(cc, k, s[1..])
  }

  /** Every character starts a match of some alternative, so `findall` skips nothing. */
  function Tokenize(cc: Classes, s: seq<char>): seq<seq<char>>
    decreases |s|
  {
    if s == [] then []
    else
      var n := RunLength(cc, KindOf(cc, s[0]), s);
      [s[..n]] + Tokenize(cc, s[n..])
  }

  /** A non-empty run of the class its first character selects. */
  predicate IsRun(cc: Classes, t: seq<char>)
  {
    t != [] && forall i :: 0 <= i < |t| ==> InClass(cc, KindOf(cc, t[0]), t[i])
  }

  /** The run `ts[i]` stops where `ts[i + 1]` starts: its first character leaves the class. */
  predicate Boundary(cc: Classes, ts: seq<seq<char>>, i: nat)
    requires i + 1 < |ts|
  {
    ts[i] != [] && ts[i + 1] != [] && !InClass(cc, KindOf(cc, ts[i][0]), ts[i + 1][0])
  }

  /** Every token is a run, and each run is maximal. */
  predicate WellShaped(cc: Classes, ts: seq<seq<char>>)
  {
    && (forall i :: 0 <= i < |ts| ==> IsRun(cc, ts[i]))
    && (forall i: nat :: i + 1 < |ts| ==> Boundary(cc, ts, i))
  }

  /** The first token of `s` is its maximal run. */
  lemma FirstToken(cc: Classes, s: seq<char>)
    requires s != []
    ensures Tokenize(cc, s)[0] == s[..RunLength(cc, KindOf(cc, s[0]), s)]
    ensures 0 < RunLength(cc, KindOf(cc, s[0]), s)
  {
    KindOfInClass(cc, s[0]);
  }

  /** Concatenating the tokens gives back the text. */
  lemma {:induction false} JoinTokenize(cc: Classes, s: seq<char>)
    ensures Join(Tokenize(cc, s)) == s
    decreases |s|
  {
    if s != [] {
      var n := RunLength(cc, KindOf(cc, s[0]), s);
      var ts := Tokenize(cc, s);
      assert ts == [s[..n]] + Tokenize(cc, s[n..]);
      JoinTokenize(cc, s[n..]);
      assert ts[1..] == Tokenize(cc, s[n..]);
      assert Join(ts) == ts[0] + Join(ts[1..]);
      assert s == s[..n] + s[n..];
    }
  }

  /** The tokens are maximal non-empty runs. */
  lemma {:induction false} TokenizeWellShaped(cc: Classes, s: seq<char>)
    ensures WellShaped(cc, Tokenize(cc, s))
    decreases |s|
  {
    if s != [] {
      var n := RunLength(cc, KindOf(cc, s[0]), s);
      FirstToken(cc, s);
      TokenizeWellShaped(cc, s[n..]);
      var ts := Tokenize(cc, s);
      var rest := Tokenize(cc, s[n..]);
      assert ts == [s[..n]] + rest;
      if rest != [] {
        FirstToken(cc, s[n..]);
        assert rest[0][0] == s[n];
      }
      forall i: nat | i + 1 < |ts|
        ensures Boundary(cc, ts, i)
      {
        if i > 0 {
          assert ts[i] == rest[i - 1] && ts[i + 1] == rest[i];
          assert Boundary(cc, rest, i - 1);
        }
      }
    }
  }

  /** Neighbouring tokens belong to different alternatives. */
  lemma AdjacentKindsDiffer(cc: Classes, ts: seq<seq<char>>, i: nat)
    requires WellShaped(cc, ts) && i + 1 < |ts|
    ensures KindOf(cc, ts[i][0]) != KindOf(cc, ts[i + 1][0])
  {
    assert Boundary(cc, ts, i);
    KindOfInClass(cc, ts[i + 1][0]);
  }

  /** A run's class holds up to its end and fails just after: that fixes its length. */
  lemma {:induction false} RunLengthIs(cc: Classes, k: Kind, s: seq<char>, m: nat)
    requires m <= |s|
    requires forall i :: 0 <= i < m ==> InClass(cc, k, s[i])
    requires m < |s| ==> !InClass(cc, k, s[m])
    ensures RunLength(cc, k, s) == m
  {
    if m > 0 {
      RunLengthIs(cc, k, s[1..], m - 1);
    }
  }

  /** The tokenizer's result is the only decomposition of a text into well-shaped tokens. */
  lemma {:induction false} TokenizeUnique(cc: Classes, s: seq<char>, ts: seq<seq<char>>)
    requires WellShaped(cc, ts) && Join(ts) == s
    ensures ts == Tokenize(cc, s)
    decreases |ts|
  {
    if ts != [] {
      var t := ts[0];
      var rest := ts[1..];
      assert s == t + Join(rest);
      assert s[0] == t[0];
      var k := KindOf(cc, t[0]);
      assert WellShaped(cc, rest) by {
        forall i: nat | i + 1 < |rest|
          ensures Boundary(cc, rest, i)
        {
          assert rest[i] == ts[i + 1] && rest[i + 1] == ts[i + 2];
          assert Boundary(cc, ts, i + 1);
        }
      }
      if rest != [] {
        assert IsRun(cc, ts[1]) && rest[0] == ts[1];
        JoinHead(rest);
        assert s[|t|] == rest[0][0];
        assert Boundary(cc, ts, 0);
      }
      assert IsRun(cc, t);
      assert forall i :: 0 <= i < |t| ==> s[i] == t[i];
      RunLengthIs(cc, k, s, |t|);
      assert s[..|t|] == t;
      TokenizeUnique(cc, s[|t|..], rest);
    }
  }

  /** The text starts with the first token's first character when that token is non-empty. */
  lemma JoinHead(ts: seq<seq<char>>)
    requires ts != [] && ts[0] != []
    ensures Join(ts) != [] && Join(ts)[0] == ts[0][0]
  {
  }

  /** The empty text, and only it, has no tokens. */
  lemma TokenizeEmpty(cc: Classes, s: seq<char>)
    ensures Tokenize(cc, s) == [] <==> s == []
  {
  }

  /** Every token is one of the text's characters in a row: a run of some alternative. */
  lemma TokenIsRun(cc: Classes, s: seq<char>, i: nat)
    requires i < |Tokenize(cc, s)|
    ensures IsRun(cc, Tokenize(cc, s)[i])
  {
    TokenizeWellShaped(cc, s);
  }

  /** The text with leading and trailing whitespace removed (`str.strip()`). */
  function Strip(cc: Classes, s: seq<char>): (r: seq<char>)
    ensures exists a, b ::
              && 0 <= a <= b <= |s| && r == s[a..b]
              && (forall i :: 0 <= i < a ==> cc.isSpace(s[i]))
              && (forall i :: b <= i < |s| ==> cc.isSpace(s[i]))
    ensures r != [] ==> !cc.isSpace(r[0]) && !cc.isSpace(r[|r| - 1])
    ensures (forall i :: 0 <= i < |s| ==> cc.isSpace(s[i])) <==> r == []
  {
    var a := StripStart(cc, s, 0);
    var b := StripEnd(cc, s, a, |s|);
    s[a..b]
  }

  /** The first position at or after `a` that holds no whitespace, or `|s|`. */
  function StripStart(cc: Classes, s: seq<char>, a: nat): (r: nat)
    requires a <= |s|
    ensures a <= r <= |s|
    ensures forall i :: a <= i < r ==> cc.isSpace(s[i])
    ensures r < |s| ==> !cc.isSpace(s[r])
    decreases |s| - a
  {
    if a == |s| || !cc.isSpace(s[a]) then a else StripStart(cc, s, a + 1)
  }

  /** The position just after the last non-whitespace character in `s[a..b]`, or `a`. */
  function StripEnd(cc: Classes, s: seq<char>, a: nat, b: nat): (r: nat)
    requires a <= b <= |s|
    ensures a <= r <= b
    ensures forall i :: r <= i < b ==> cc.isSpace(s[i])
    ensures r > a ==> !cc.isSpace(s[r - 1])
    decreases b - a
  {
    if b == a || !cc.isSpace(s[b - 1]) then b else StripEnd(cc, s, a, b - 1)
  }
}
