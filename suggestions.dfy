/**
 * Suggestions of the C backend: the `Suggestion` record, the order
 * `sort_suggestions` establishes (distance, then `strcmp` on the word), the
 * in-place exchange sort itself, and the filters `get_suggestions` applies to
 * the dictionary.
 */
module Suggestions {
  import opened CStrings
  import opened EditDistance

  /** `MAX_TEMP_SUGGESTIONS`: the most entries `get_suggestions` writes. */
  const MaxTempSuggestions := 1000

  /** `MAX_WORD_LEN`: the size of a word buffer, terminating NUL included. */
  const MaxWordLen := 50

  datatype Suggestion = Suggestion(word: seq<char>, dist: int)

  /** `x` belongs before `y`: a smaller distance, or the same distance and a smaller word under `strcmp`. */
  predicate Less(x: Suggestion, y: Suggestion)
  {
    x.dist < y.dist || (x.dist == y.dist && StrLess(x.word, y.word))
  }

  /** No entry belongs before an earlier one. */
  predicate Sorted(s: seq<Suggestion>)
  {
    forall k, m :: 0 <= k < m < |s| ==> !Less(s[m], s[k])
  }

  lemma LessIrreflexive(x: Suggestion)
    ensures !Less(x, x)
  {
    StrLessIrreflexive(x.word);
  }

  lemma LessTransitive(x: Suggestion, y: Suggestion, z: Suggestion)
    requires Less(x, y) && Less(y, z)
    ensures Less(x, z)
  {
    if x.dist == y.dist == z.dist {
      StrLessTransitive(x.word, y.word, z.word);
    }
  }

  /** Sorted means non-decreasing distance, and non-decreasing words among equal distances. */
  lemma SortedIsNondecreasing(s: seq<Suggestion>, k: nat, m: nat)
    requires Sorted(s) && k < m < |s|
    ensures s[k].dist <= s[m].dist
    ensures s[k].dist == s[m].dist ==> s[k].word == s[m].word || StrLess(s[k].word, s[m].word)
  {
    assert !Less(s[m], s[k]);
    if s[k].dist == s[m].dist && s[k].word != s[m].word {
      StrLessTotal(s[k].word, s[m].word);
    }
  }

  /** The exchange in the inner loop of `sort_suggestions`. */
  method Swap(a: array<Suggestion>, i: nat, j: nat)
    requires i < j < a.Length
    modifies a
    ensures a[..] == old(a[..])[i := old(a[j])][j := old(a[i])]
  {
    a[i], a[j] := a[j], a[i];
  }

  /**
   * `sort_suggestions`: for each position `i` in turn, every later entry that
   * belongs before the one at `i` is exchanged with it, so that position `i`
   * ends up holding the least of the remaining entries.
   */
  method SortSuggestions(suggestions: array<Suggestion>, count: int)
    requires count <= suggestions.Length
    modifies suggestions
    ensures var n := if count < 0 then 0 else count;
      && Sorted(suggestions[..n])
      && multiset(suggestions[..n]) == multiset(old(suggestions[..n]))
      && suggestions[n..] == old(suggestions[n..])
  {
    ghost var n := if count < 0 then 0 else count;
    var i := 0;
    while i < count - 1
      invariant 0 <= i <= n
      invariant forall k, m :: 0 <= k < i && k < m < n ==> !Less(suggestions[m], suggestions[k])
      invariant multiset(suggestions[..n]) == multiset(old(suggestions[..n]))
      invariant suggestions[n..] == old(suggestions[n..])
    {
      var j := i + 1;
      while j < count
        invariant i < j <= n
        invariant forall m :: i < m < j ==> !Less(suggestions[m], suggestions[i])
        invariant forall k, m :: 0 <= k < i && k < m < n ==> !Less(suggestions[m], suggestions[k])
        invariant multiset(suggestions[..n]) == multiset(old(suggestions[..n]))
        invariant suggestions[n..] == old(suggestions[n..])
      {
        if Less(suggestions[j], suggestions[i]) {
          ExchangeKeepsOrder(suggestions[..], n, i, j);
          Swap(suggestions, i, j);
        }
        j := j + 1;
      }
      i := i + 1;
    }
  }

  /** What one exchange of the sort preserves, stated on the array's contents `s` before it. */
  lemma ExchangeKeepsOrder(s: seq<Suggestion>, n: nat, i: nat, j: nat)
    requires i < j < n <= |s| && Less(s[j], s[i])
    requires forall m :: i < m < j ==> !Less(s[m], s[i])
    requires forall k, m :: 0 <= k < i && k < m < n ==> !Less(s[m], s[k])
    ensures var t := s[i := s[j]][j := s[i]];
      && (forall m :: i < m <= j ==> !Less(t[m], t[i]))
      && (forall k, m :: 0 <= k < i && k < m < n ==> !Less(t[m], t[k]))
      && multiset(t[..n]) == multiset(s[..n])
      && t[n..] == s[n..]
  {
    var t := s[i := s[j]][j := s[i]];
    forall m | i < m <= j
      ensures !Less(t[m], t[i])
    {
      if m == j {
        if Less(s[i], s[j]) {
          LessTransitive(s[i], s[j], s[i]);
          LessIrreflexive(s[i]);
        }
      } else if Less(s[m], s[j]) {
        LessTransitive(s[m], s[j], s[i]);
      }
    }
    assert t[..n] == s[..n][i := s[j]][j := s[i]];
  }

  /** The length and tolerance filters `get_suggestions` applies to one dictionary word against the lowered input `key`. */
  predicate Passes(w: seq<char>, key: seq<char>, tolerance: int, missLen: int, lenTol: int)
  {
    && !(|w| < missLen)
    && !(Abs(|w| - missLen) > lenTol)
    && Distance(key, w) <= tolerance
  }

  /** Every dictionary word that passes the filters, with its distance, in dictionary order. */
  function Matches(words: seq<seq<char>>, key: seq<char>, tolerance: int, missLen: int, lenTol: int): seq<Suggestion>
  {
    if words == [] then []
    else
      var w := words[|words| - 1];
      Matches(words[..|words| - 1], key, tolerance, missLen, lenTol)
        + (if Passes(w, key, tolerance, missLen, lenTol) then [Suggestion(w, Distance(key, w))] else [])
  }

  /** Each match is a dictionary word that passes the filters, with its true distance. */
  lemma {:induction false} MatchesSound(words: seq<seq<char>>, key: seq<char>, tolerance: int, missLen: int, lenTol: int, k: nat)
    requires k < |Matches(words, key, tolerance, missLen, lenTol)|
    ensures var m := Matches(words, key, tolerance, missLen, lenTol)[k];
      && m.word in words
      && m.dist == Distance(key, m.word)
      && 0 <= m.dist <= tolerance
      && missLen <= |m.word| <= missLen + lenTol
  {
    var prev := Matches(words[..|words| - 1], key, tolerance, missLen, lenTol);
    if k < |prev| {
      MatchesSound(words[..|words| - 1], key, tolerance, missLen, lenTol, k);
    }
  }

  /** Each dictionary word that passes the filters is matched. */
  lemma {:induction false} MatchesComplete(words: seq<seq<char>>, key: seq<char>, tolerance: int, missLen: int, lenTol: int, i: nat)
    requires i < |words| && Passes(words[i], key, tolerance, missLen, lenTol)
    ensures Suggestion(words[i], Distance(key, words[i])) in Matches(words, key, tolerance, missLen, lenTol)
  {
    if i < |words| - 1 {
      assert words[..|words| - 1][i] == words[i];
      MatchesComplete(words[..|words| - 1], key, tolerance, missLen, lenTol, i);
    }
  }

  /** The matches of a prefix of the dictionary are a prefix of its matches. */
  lemma {:induction false} MatchesPrefix(words: seq<seq<char>>, key: seq<char>, tolerance: int, missLen: int, lenTol: int, i: nat)
    requires i <= |words|
    ensures Matches(words[..i], key, tolerance, missLen, lenTol) <= Matches(words, key, tolerance, missLen, lenTol)
    decreases |words|
  {
    if i < |words| {
      MatchesPrefix(words[..|words| - 1], key, tolerance, missLen, lenTol, i);
      assert words[..|words| - 1][..i] == words[..i];
    } else {
      assert words[..i] == words;
    }
  }

  /** One more dictionary word extends the matches by that word when it passes. */
  lemma MatchesNext(words: seq<seq<char>>, key: seq<char>, tolerance: int, missLen: int, lenTol: int, i: nat)
    requires i < |words|
    ensures Matches(words[..i + 1], key, tolerance, missLen, lenTol)
      == Matches(words[..i], key, tolerance, missLen, lenTol)
         + (if Passes(words[i], key, tolerance, missLen, lenTol) then [Suggestion(words[i], Distance(key, words[i]))] else [])
  {
    assert words[..i + 1][..i] == words[..i];
  }
}
