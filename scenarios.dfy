/**
 * A worked session over ASCII character classes and a three-word dictionary:
 * "The quik fox" shows one error and 66%; replacing the flagged word by
 * "quick" gives "The quick fox", with no error and 100%.
 */
module Scenarios {
  import opened Wrappers
  import opened CStrings
  import opened EditDistance
  import opened Dictionary
  import opened CharClasses
  import opened Tokenizer
  import opened Analysis
  import opened Session
  import opened Suggestions
  import opened Display

  const Dict: seq<seq<char>> := ["the", "quick", "fox"]

  /** Five maximal runs that spell `s` are what the tokenizer returns for it. */
  lemma FiveTokens(cc: Classes, s: seq<char>, ts: seq<seq<char>>)
    requires |ts| == 5 && s == ts[0] + ts[1] + ts[2] + ts[3] + ts[4]
    requires IsRun(cc, ts[0]) && IsRun(cc, ts[1]) && IsRun(cc, ts[2]) && IsRun(cc, ts[3]) && IsRun(cc, ts[4])
    requires Boundary(cc, ts, 0) && Boundary(cc, ts, 1) && Boundary(cc, ts, 2) && Boundary(cc, ts, 3)
    ensures Tokenize(cc, s) == ts
  {
    JoinFive(ts);
    assert forall i :: 0 <= i < |ts| ==> IsRun(cc, ts[i]);
    assert forall i: nat :: i + 1 < |ts| ==> Boundary(cc, ts, i);
    TokenizeUnique(cc, s, ts);
  }

  /** A non-empty word of ASCII letters. */
  predicate Letters(t: seq<char>)
  {
    t != [] && forall i :: 0 <= i < |t| ==> AsciiLetter(t[i])
  }

  /** Three words of letters separated by single spaces are five tokens. */
  lemma ThreeWords(a: seq<char>, b: seq<char>, c: seq<char>)
    requires Letters(a) && Letters(b) && Letters(c)
    ensures Tokenize(Ascii(), a + " " + b + " " + c) == [a, " ", b, " ", c]
  {
    var cc := Ascii();
    var ts: seq<seq<char>> := [a, " ", b, " ", c];
    assert a + " " + b + " " + c == ts[0] + ts[1] + ts[2] + ts[3] + ts[4];
    assert IsRun(cc, ts[0]) && IsRun(cc, ts[1]) && IsRun(cc, ts[2]) && IsRun(cc, ts[3]) && IsRun(cc, ts[4]);
    assert Boundary(cc, ts, 0) && Boundary(cc, ts, 1) && Boundary(cc, ts, 2) && Boundary(cc, ts, 3);
    FiveTokens(cc, a + " " + b + " " + c, ts);
  }

  /** A sentence that starts and ends with a letter is its own stripped form. */
  lemma StripKeeps(cc: Classes, s: seq<char>)
    requires s != [] && !cc.isSpace(s[0]) && !cc.isSpace(s[|s| - 1])
    ensures Strip(cc, s) == s
  {
    var a := StripStart(cc, s, 0);
    assert a == 0;
    var b := StripEnd(cc, s, a, |s|);
    assert b == |s|;
    assert Strip(cc, s) == s[a..b];
    assert s[a..b] == s;
  }

  /** Counting over five tokens, one indicator each. */
  lemma CountFive(ts: seq<seq<char>>, p: seq<char> -> bool)
    requires |ts| == 5
    ensures CountWhere(ts, p) == (if p(ts[0]) then 1 else 0) + (if p(ts[1]) then 1 else 0)
      + (if p(ts[2]) then 1 else 0) + (if p(ts[3]) then 1 else 0) + (if p(ts[4]) then 1 else 0)
  {
    assert ts[..1][..0] == [];
    assert CountWhere(ts[..1], p) == (if p(ts[0]) then 1 else 0);
    assert ts[..2][..1] == ts[..1];
    assert CountWhere(ts[..2], p) == CountWhere(ts[..1], p) + (if p(ts[1]) then 1 else 0);
    assert ts[..3][..2] == ts[..2];
    assert CountWhere(ts[..3], p) == CountWhere(ts[..2], p) + (if p(ts[2]) then 1 else 0);
    assert ts[..4][..3] == ts[..3];
    assert CountWhere(ts[..4], p) == CountWhere(ts[..3], p) + (if p(ts[3]) then 1 else 0);
    assert ts[..4] == ts[..|ts| - 1];
  }

  /** Joining five tokens. */
  lemma JoinFive(ts: seq<seq<char>>)
    requires |ts| == 5
    ensures Join(ts) == ts[0] + ts[1] + ts[2] + ts[3] + ts[4]
  {
    var t1 := ts[1..];
    var t2 := t1[1..];
    var t3 := t2[1..];
    var t4 := t3[1..];
    assert t4[1..] == [];
    assert Join(t4) == ts[4];
    assert Join(t3) == ts[3] + ts[4];
    assert Join(t2) == ts[2] + (ts[3] + ts[4]);
    assert Join(t1) == ts[1] + (ts[2] + (ts[3] + ts[4]));
  }

  lemma LowerThe(t: seq<char>)
    requires t == "The"
    ensures LowerStr(Ascii(), t) == "the"
  {
    var l := LowerStr(Ascii(), t);
    assert l[0] == 't' && l[1] == 'h' && l[2] == 'e';
  }

  /** A lowercase ASCII word is its own lowercase, a word, and its own lookup key. */
  lemma LowercaseWord(t: seq<char>)
    requires t != [] && |t| < 10 && forall i :: 0 <= i < |t| ==> 'a' <= t[i] <= 'z'
    ensures LowerStr(Ascii(), t) == t && IsWord(Ascii(), t) && Key(t) == t
  {
    var cc := Ascii();
    var l := LowerStr(cc, t);
    forall i | 0 <= i < |t|
      ensures l[i] == t[i] && cc.isAlpha(l[i])
    {
      assert l[i] == ToLower(t[i]);
    }
    assert l == t;
    assert forall c :: c in t ==> !IsUpper(c) && c != '\n' && c != '\r' && c != '\0';
    assert StoredWord(t);
    KeyOfStoredWord(t);
  }

  lemma SpaceNotWord(t: seq<char>)
    requires t == " "
    ensures !IsWord(Ascii(), t) && !IsError(Ascii(), Dict, t)
  {
    assert LowerStr(Ascii(), t)[0] == ' ';
  }

  lemma TheKnown()
    ensures IsWord(Ascii(), "The") && !IsError(Ascii(), Dict, "The")
  {
    LowerThe("The");
    LowercaseWord("the");
  }

  lemma QuikUnknown()
    ensures IsWord(Ascii(), "quik") && IsError(Ascii(), Dict, "quik")
  {
    LowercaseWord("quik");
  }

  /** A word of the dictionary, as written there, is a word and no error. */
  lemma DictWordKnown(w: seq<char>)
    requires w in Dict
    ensures IsWord(Ascii(), w) && !IsError(Ascii(), Dict, w)
  {
    assert w == "the" || w == "quick" || w == "fox";
    LowercaseWord(w);
  }

  lemma CountsQuikFox(ts: seq<seq<char>>)
    requires ts == ["The", " ", "quik", " ", "fox"]
    ensures WordCount(Ascii(), ts) == 3 && ErrorCount(Ascii(), Dict, ts) == 1
  {
    TheKnown();
    SpaceNotWord(" ");
    QuikUnknown();
    DictWordKnown("fox");
    CountFive(ts, t => IsWord(Ascii(), t));
    CountFive(ts, t => IsError(Ascii(), Dict, t));
  }

  lemma CountsQuickFox(ts: seq<seq<char>>)
    requires ts == ["The", " ", "quick", " ", "fox"]
    ensures WordCount(Ascii(), ts) == 3 && ErrorCount(Ascii(), Dict, ts) == 0
  {
    TheKnown();
    SpaceNotWord(" ");
    DictWordKnown("quick");
    DictWordKnown("fox");
    CountFive(ts, t => IsWord(Ascii(), t));
    CountFive(ts, t => IsError(Ascii(), Dict, t));
  }

  /** Checking "The quik fox": three words, one of them unknown, 66%, the misspelling flagged. */
  lemma CheckQuikFox(v: View)
    requires v.text == "The quik fox"
    ensures var r := Check(Ascii(), v, true, Dict);
      && r.tokens == ["The", " ", "quik", " ", "fox"]
      && r.stats == Stats(3, 1, 66)
      && r.preview[2] == Label("quik", true)
  {
    StripKeeps(Ascii(), v.text);
    assert v.text == "The" + " " + "quik" + " " + "fox";
    ThreeWords("The", "quik", "fox");
    CountsQuikFox(["The", " ", "quik", " ", "fox"]);
    QuikUnknown();
    TwoOfThree();
  }

  /** Checking "The quick fox": three words, no error, 100%. */
  lemma CheckQuickFox(v: View)
    requires v.text == "The quick fox"
    ensures var r := Check(Ascii(), v, true, Dict);
      && r.tokens == ["The", " ", "quick", " ", "fox"]
      && r.stats == Stats(3, 0, 100)
  {
    StripKeeps(Ascii(), v.text);
    assert v.text == "The" + " " + "quick" + " " + "fox";
    ThreeWords("The", "quick", "fox");
    CountsQuickFox(["The", " ", "quick", " ", "fox"]);
  }

  /** Replacing the flagged "quik" by "quick" rewrites the sentence and clears the error. */
  lemma FixQuikFox(v: View)
    requires v.tokens == ["The", " ", "quik", " ", "fox"] && v.selIdx == 2
    ensures var r := Replace(Ascii(), v, "quick", true, Dict);
      && r.text == "The quick fox"
      && r.stats == Stats(3, 0, 100)
      && r.selIdx == -1
  {
    var ts := v.tokens[2 := "quick"];
    assert ts == ["The", " ", "quick", " ", "fox"];
    JoinFive(ts);
    assert ts[0] + ts[1] + ts[2] + ts[3] + ts[4] == "The quick fox";
    CheckQuickFox(v.(tokens := ts, text := Join(ts)));
  }

  /**
   * What the C search finds for "quik" in the dictionary, with the GUI's
   * default tolerance 2 and, for the two arguments the GUI does not pass, what
   * the C driver passes: the word's own length and length tolerance 2.
   * "the" and "fox" are shorter than the misspelling, and "quick" is one
   * insertion away.
   */
  lemma QuikMatches()
    ensures Distance("quik", "quick") == 1
    ensures Matches(Dict, Key("quik"), 2, 4, 2) == [Suggestion("quick", 1)]
  {
    var s: seq<char>, t: seq<char> := "quik", "quick";
    assert s[..3] == t[..3];
    OsaEqualPrefix(s, t, 3);
    assert Osa(s, t, 3, 4) <= 1;
    assert Osa(s, t, 4, 5) <= 1;
    DistanceBounds(s, t);
    LowercaseWord(s);
    assert Dict[..2][..1] == ["the"] && Dict[..1][..0] == [];
    assert Matches(["the"], s, 2, 4, 2) == [];
    assert Matches(Dict[..2], s, 2, 4, 2) == [Suggestion("quick", 1)];
  }

  /**
   * Clicking the flagged "quik", with the list filled from what the C search
   * finds for it, and applying its one line rewrites the sentence to "The
   * quick fox" and clears the error.
   */
  lemma PickQuick(v: View)
    requires v.tokens == ["The", " ", "quik", " ", "fox"]
    ensures var found := Matches(Dict, Key("quik"), 2, 4, 2);
      && var w := Select(v, 2, "quik", 2, Some(found));
      && w.listbox == [DisplayText(Suggestion("quick", 1))]
      && var r := Apply(Ascii(), w, Some(w.listbox[0]), true, Dict);
      && r.text == "The quick fox"
      && r.stats == Stats(3, 0, 100)
  {
    QuikMatches();
    var sg := Suggestion("quick", 1);
    var w := Select(v, 2, "quik", 2, Some([sg]));
    assert w.listbox == [DisplayText(sg)];
    assert forall c :: c in sg.word ==> !IsUpper(c) && c != ' ';
    LowercaseNeverPlaceholder(sg);
    DisplayRoundTrip(sg);
    FixQuikFox(w);
  }
}
