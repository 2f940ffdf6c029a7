/**
 * The analysis pass of `check_sentence` and the statistics of `update_stats`:
 * which tokens count as words, which of those are flagged, and the accuracy
 * figure.
 */
module Analysis {
  import opened CharClasses
  import opened Tokenizer
  import opened Dictionary

  /** `token.lower()`, one character at a time. */
  function LowerStr(cc: Classes, t: seq<char>): (r: seq<char>)
    ensures |r| == |t|
    ensures forall i :: 0 <= i < |t| ==> r[i] == cc.lower(t[i])
  {
    if t == [] then [] else [cc.lower(t[0])] + LowerStr(cc, t[1..])
  }

  /** `str.isalpha()`: non-empty and alphabetic throughout. */
  predicate IsAlphaStr(cc: Classes, t: seq<char>)
  {
    t != [] && forall i :: 0 <= i < |t| ==> cc.isAlpha(t[i])
  }

  /** A token that counts as a word. */
  predicate IsWord(cc: Classes, t: seq<char>)
  {
    IsAlphaStr(cc, LowerStr(cc, t))
  }

  /** A word the dictionary holding `words` does not know. */
  predicate IsError(cc: Classes, words: seq<seq<char>>, t: seq<char>)
  {
    IsWord(cc, t) && !InDictionary(words, LowerStr(cc, t))
  }

  /** How many of `ts` satisfy `p`, counted from the front. */
  function CountWhere(ts: seq<seq<char>>, p: seq<char> -> bool): nat
  {
    if ts == [] then 0
    else CountWhere(ts[..|ts| - 1], p) + (if p(ts[|ts| - 1]) then 1 else 0)
  }

  /** The positions of `ts` that satisfy `p`. */
  function PositionsWhere(ts: seq<seq<char>>, p: seq<char> -> bool): set<nat>
  {
    set i: nat | i < |ts| && p(ts[i])
  }

  lemma CountWhereNext(ts: seq<seq<char>>, p: seq<char> -> bool, i: nat)
    requires i < |ts|
    ensures CountWhere(ts[..i + 1], p) == CountWhere(ts[..i], p) + (if p(ts[i]) then 1 else 0)
  {
    assert ts[..i + 1][..i] == ts[..i];
  }

  lemma WordCountNext(cc: Classes, ts: seq<seq<char>>, i: nat)
    requires i < |ts|
    ensures WordCount(cc, ts[..i + 1]) == WordCount(cc, ts[..i]) + (if IsWord(cc, ts[i]) then 1 else 0)
  {
    CountWhereNext(ts, t => IsWord(cc, t), i);
  }

  lemma ErrorCountNext(cc: Classes, words: seq<seq<char>>, ts: seq<seq<char>>, i: nat)
    requires i < |ts|
    ensures ErrorCount(cc, words, ts[..i + 1]) == ErrorCount(cc, words, ts[..i]) + (if IsError(cc, words, ts[i]) then 1 else 0)
  {
    CountWhereNext(ts, t => IsError(cc, words, t), i);
  }

  /** The count is the number of satisfying positions. */
  lemma {:induction false} CountWhereIsPositions(ts: seq<seq<char>>, p: seq<char> -> bool)
    ensures CountWhere(ts, p) == |PositionsWhere(ts, p)|
  {
    if ts != [] {
      var n := |ts| - 1;
      var init := ts[..n];
      CountWhereIsPositions(init, p);
      var extra: set<nat> := if p(ts[n]) then {n} else {};
      assert PositionsWhere(ts, p) == PositionsWhere(init, p) + extra by {
        forall i: nat | i < n
          ensures ts[i] == init[i]
        {
        }
      }
      assert n !in PositionsWhere(init, p);
    }
  }

  /** A stronger condition is met no more often. */
  lemma {:induction false} CountWhereMonotone(ts: seq<seq<char>>, p: seq<char> -> bool, q: seq<char> -> bool)
    requires forall t :: p(t) ==> q(t)
    ensures CountWhere(ts, p) <= CountWhere(ts, q)
  {
    if ts != [] {
      CountWhereMonotone(ts[..|ts| - 1], p, q);
    }
  }

  /** `word_count`: the tokens whose lowercase is alphabetic. */
  function WordCount(cc: Classes, ts: seq<seq<char>>): nat
  {
    CountWhere(ts, t => IsWord(cc, t))
  }

  /** `error_count`: the words the dictionary holding `words` does not know. */
  function ErrorCount(cc: Classes, words: seq<seq<char>>, ts: seq<seq<char>>): nat
  {
    CountWhere(ts, t => IsError(cc, words, t))
  }

  /** The counts are the numbers of word and of flagged positions. */
  lemma CountsArePositions(cc: Classes, words: seq<seq<char>>, ts: seq<seq<char>>)
    ensures WordCount(cc, ts) == |set i: nat | i < |ts| && IsWord(cc, ts[i])|
    ensures ErrorCount(cc, words, ts) == |set i: nat | i < |ts| && IsError(cc, words, ts[i])|
  {
    var isWord := t => IsWord(cc, t);
    var isError := t => IsError(cc, words, t);
    CountWhereIsPositions(ts, isWord);
    CountWhereIsPositions(ts, isError);
    assert PositionsWhere(ts, isWord) == set i: nat | i < |ts| && IsWord(cc, ts[i]);
    assert PositionsWhere(ts, isError) == set i: nat | i < |ts| && IsError(cc, words, ts[i]);
  }

  /** No more errors than words. */
  lemma ErrorsAtMostWords(cc: Classes, words: seq<seq<char>>, ts: seq<seq<char>>)
    ensures ErrorCount(cc, words, ts) <= WordCount(cc, ts)
  {
    CountWhereMonotone(ts, t => IsError(cc, words, t), t => IsWord(cc, t));
  }

  /** A token holding a character whose lowercase is not alphabetic (a digit, `_`) is never counted. */
  lemma NonAlphaNotCounted(cc: Classes, words: seq<seq<char>>, t: seq<char>, k: nat)
    requires k < |t| && !cc.isAlpha(cc.lower(t[k]))
    ensures !IsWord(cc, t) && !IsError(cc, words, t)
  {
    assert LowerStr(cc, t)[k] == cc.lower(t[k]);
  }

  /** Punctuation and whitespace tokens are never counted or flagged. */
  lemma NonWordTokenNotCounted(cc: Classes, words: seq<seq<char>>, s: seq<char>, i: nat)
    requires cc.Sane() && i < |Tokenize(cc, s)|
    ensures Tokenize(cc, s)[i] != []
    ensures KindOf(cc, Tokenize(cc, s)[i][0]) != Word ==>
              !IsWord(cc, Tokenize(cc, s)[i]) && !IsError(cc, words, Tokenize(cc, s)[i])
  {
    var t := Tokenize(cc, s)[i];
    TokenIsRun(cc, s, i);
    if KindOf(cc, t[0]) != Word {
      NonAlphaNotCounted(cc, words, t, 0);
    }
  }

  /** Python's `int()` on a quotient: division truncated toward zero. */
  function TruncDiv(a: int, b: int): int
    requires b > 0
  {
    if a >= 0 then a / b else -((-a) / b)
  }

  /** `100 if word_count == 0 else int(((word_count - error_count) / word_count) * 100)`. */
  function Accuracy(w: nat, e: nat): int
  {
    if w == 0 then 100 else TruncDiv((w - e) * 100, w)
  }

  /** What the three statistics cards show. */
  datatype Stats = Stats(words: nat, errors: nat, accuracy: int)

  function StatsOf(w: nat, e: nat): Stats
  {
    Stats(w, e, Accuracy(w, e))
  }

  /** The cards before any check: "0", "0" and "100%". */
  const InitialStats := Stats(0, 0, 100)

  /** With no more errors than words the accuracy is a percentage, the share of correct words rounded down. */
  lemma AccuracyBounds(w: nat, e: nat)
    requires e <= w
    ensures 0 <= Accuracy(w, e) <= 100
    ensures w > 0 ==> Accuracy(w, e) * w <= (w - e) * 100 < (Accuracy(w, e) + 1) * w
  {
    if w > 0 {
      assert (w - e) * 100 <= w * 100;
      DivBelow((w - e) * 100, w, 100);
    }
  }

  lemma DivBelow(a: nat, b: nat, c: nat)
    requires b > 0 && a <= b * c
    ensures a / b <= c
  {
  }

  /** The accuracy is full exactly when there is nothing to get wrong or nothing wrong. */
  lemma AccuracyFull(w: nat, e: nat)
    requires e <= w
    ensures Accuracy(w, e) == 100 <==> w == 0 || e == 0
  {
    if w > 0 {
      var a := (w - e) * 100;
      assert Accuracy(w, e) == a / w;
      if e == 0 {
        assert a == 100 * w;
        DivExact(100, w);
      } else {
        assert a < 100 * w;
        DivStrictlyBelow(a, w, 100);
      }
    }
  }

  lemma DivExact(c: nat, b: nat)
    requires b > 0
    ensures (c * b) / b == c
  {
    var q, r := (c * b) / b, (c * b) % b;
    assert c * b == q * b + r && 0 <= r < b;
    if q > c {
      MulMonotone(q, c + 1, b);
    } else if q < c {
      MulMonotone(c, q + 1, b);
    }
  }

  lemma DivStrictlyBelow(a: nat, b: nat, c: nat)
    requires b > 0 && a < c * b
    ensures a / b < c
  {
    if a / b >= c {
      MulMonotone(a / b, c, b);
    }
  }

  lemma MulMonotone(a: int, b: int, w: nat)
    requires a >= b
    ensures a * w >= b * w
  {
  }

  /** An empty sentence reports no words, no errors and full accuracy. */
  lemma EmptyStats()
    ensures StatsOf(0, 0) == InitialStats
  {
  }

  /** Two correct words out of three show as 66%, not 67%. */
  lemma TwoOfThree()
    ensures Accuracy(3, 1) == 66
  {
  }
}
