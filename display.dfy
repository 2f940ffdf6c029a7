/**
 * The suggestion list of `select_incorrect_word` and how `apply_suggestion`
 * reads a choice back: the display text of a suggestion, the placeholder shown
 * when there are none, and `text.split(' ')[0]`.
 */
module Display {
  import opened CStrings
  import opened EditDistance
  import opened Suggestions

  /** The single entry shown when there are no suggestions. */
  const Placeholder := "No suggestions found"

  /** `max(0, 100 - dist * 10)`. */
  function Similarity(dist: int): (p: int)
    ensures 0 <= p && (dist >= 0 ==> p <= 100)
    ensures dist > 0 ==> p <= 90
    ensures dist >= 10 ==> p == 0
  {
    Max(0, 100 - dist * 10)
  }

  /** An integer in decimal, as an f-string writes a non-negative one. */
  function NatToString(n: nat): (r: seq<char>)
    ensures r != [] && forall c :: c in r ==> '0' <= c <= '9'
  {
    var d := ['0' + (n % 10) as char];
    if n < 10 then d else NatToString(n / 10) + d
  }

  /** A suggestion as the list shows it: the word, and its similarity when it is not an exact match. */
  function DisplayText(s: Suggestion): seq<char>
  {
    s.word + (if s.dist > 0 then " (similarity: " + NatToString(Similarity(s.dist)) + "%)" else "")
  }

  /** The list after a selection: one line per suggestion, or the placeholder alone. */
  function ListboxItems(suggestions: seq<Suggestion>): (items: seq<seq<char>>)
    ensures |items| == if suggestions == [] then 1 else |suggestions|
    ensures suggestions == [] ==> items == [Placeholder]
    ensures suggestions != [] ==> forall k :: 0 <= k < |suggestions| ==> items[k] == DisplayText(suggestions[k])
  {
    if suggestions == [] then [Placeholder] else DisplayAll(suggestions)
  }

  function DisplayAll(suggestions: seq<Suggestion>): (items: seq<seq<char>>)
    ensures |items| == |suggestions|
    ensures forall k :: 0 <= k < |suggestions| ==> items[k] == DisplayText(suggestions[k])
  {
    if suggestions == [] then [] else [DisplayText(suggestions[0])] + DisplayAll(suggestions[1..])
  }

  /** `text.split(' ')[0]`: everything before the first space. */
  function FirstField(text: seq<char>): (r: seq<char>)
    ensures r <= text && ' ' !in r
    ensures |r| < |text| ==> text[|r|] == ' '
  {
    if text == [] || text[0] == ' ' then [] else [text[0]] + FirstField(text[1..])
  }

  /** The field before the first space of `a + b`, when `a` holds none and `b` starts with one, is `a`. */
  lemma {:induction false} FirstFieldOfConcat(a: seq<char>, b: seq<char>)
    requires ' ' !in a && (b == [] || b[0] == ' ')
    ensures FirstField(a + b) == a
  {
    if a != [] {
      assert (a + b)[1..] == a[1..] + b;
      FirstFieldOfConcat(a[1..], b);
    } else {
      assert a + b == b;
    }
  }

  /** Reading a suggestion's line back gives its word, provided the word holds no space. */
  lemma DisplayRoundTrip(s: Suggestion)
    requires ' ' !in s.word
    ensures FirstField(DisplayText(s)) == s.word
  {
    var suffix := if s.dist > 0 then " (similarity: " + NatToString(Similarity(s.dist)) + "%)" else "";
    FirstFieldOfConcat(s.word, suffix);
  }

  /** A dictionary entry with a space in it comes back cut at the space. */
  lemma SpacedWordCut()
    ensures FirstField(DisplayText(Suggestion("new york", 1))) == "new"
  {
    assert DisplayText(Suggestion("new york", 1)) == "new" + " york (similarity: 90%)";
    FirstFieldOfConcat("new", " york (similarity: 90%)");
  }

  /** Only an exact-match suggestion whose word is the placeholder's text displays as the placeholder. */
  lemma DisplayedAsPlaceholder(s: Suggestion)
    ensures DisplayText(s) == Placeholder ==> s.word == Placeholder && s.dist <= 0
  {
    if s.dist > 0 {
      assert DisplayText(s)[|s.word| + 1] == '(';
    }
    assert '(' !in Placeholder;
  }

  /** A suggestion for a lowercase word, as the dictionary holds them, never reads as the placeholder. */
  lemma LowercaseNeverPlaceholder(s: Suggestion)
    requires forall c :: c in s.word ==> !IsUpper(c)
    ensures DisplayText(s) != Placeholder
  {
    DisplayedAsPlaceholder(s);
    assert IsUpper(Placeholder[0]) && Placeholder[0] in Placeholder;
  }
}
