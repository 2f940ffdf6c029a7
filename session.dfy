/**
 * The correction session of `SpellCheckerApp` as a state machine over what the
 * window holds: the sentence text, `all_tokens`, the preview labels, the
 * selection (`current_incorrect_word_obj`, `current_original_token`,
 * `current_replacement_idx`), the suggestion list and the statistics. Each
 * handler is a function from the state before to the state after.
 */
module Session {
  import opened Wrappers
  import opened CStrings
  import opened Suggestions
  import opened Dictionary
  import opened CharClasses
  import opened Tokenizer
  import opened Analysis
  import opened Display

  /** One label of the preview: its token and whether it is shown as an error. */
  datatype Label = Label(token: seq<char>, isError: bool)

  datatype View = View(
    text: seq<char>,              // the sentence widget's content
    tokens: seq<seq<char>>,       // `all_tokens`
    preview: seq<Label>,          // the labels in the preview frame, in order
    selLabel: Option<nat>,        // `current_incorrect_word_obj`, as the position of that label
    selToken: Option<seq<char>>,  // `current_original_token`
    selIdx: int,                  // `current_replacement_idx`; -1 is no selection
    listbox: seq<seq<char>>,      // the suggestion list's lines
    stats: Stats)                 // the three statistics cards

  /** The window after construction, before the first load. */
  function Initial(): View
  {
    View([], [], [], None, None, -1, [], InitialStats)
  }

  /** The labels `check_sentence` creates, one per token. */
  function Labels(cc: Classes, words: seq<seq<char>>, ts: seq<seq<char>>): (ls: seq<Label>)
    ensures |ls| == |ts|
    ensures forall i :: 0 <= i < |ts| ==> ls[i] == Label(ts[i], IsError(cc, words, ts[i]))
  {
    if ts == [] then [] else [Label(ts[0], IsError(cc, words, ts[0]))] + Labels(cc, words, ts[1..])
  }

  /** `clear_preview`: drops the selection if a label is selected, and every label. */
  function ClearPreview(v: View): View
  {
    var w := if v.selLabel.Some? then v.(selLabel := None, selToken := None, selIdx := -1) else v;
    w.(preview := [])
  }

  /** `reset_selection`: empties the suggestion list and forgets the selection. */
  function ResetSelection(v: View): View
  {
    v.(listbox := [], selLabel := None, selToken := None, selIdx := -1)
  }

  /**
   * `check_sentence`, given whether a loaded checker is present and the
   * dictionary it holds. Without one, only the preview and selection are
   * cleared; on an empty sentence, the preview is cleared and the statistics
   * zeroed; otherwise the stripped text is tokenized, labelled and counted.
   */
  function Check(cc: Classes, v: View, checkable: bool, words: seq<seq<char>>): View
  {
    if !checkable then ResetSelection(ClearPreview(v))
    else
      var sentence := Strip(cc, v.text);
      if sentence == [] then ClearPreview(v).(stats := StatsOf(0, 0))
      else
        var ts := Tokenize(cc, sentence);
        ResetSelection(ClearPreview(v)).(
          tokens := ts,
          preview := Labels(cc, words, ts),
          stats := StatsOf(WordCount(cc, ts), ErrorCount(cc, words, ts)))
  }

  /**
   * `select_incorrect_word` for the label at `clicked` carrying `token` at `index`: records the
   * selection and fills the list from `found`, what the checker's
   * `get_suggestions` returned; `None` when there is no checker and the call
   * raises, leaving the list empty.
   */
  function Select(v: View, clicked: nat, token: seq<char>, index: int, found: Option<seq<Suggestion>>): View
  {
    var w := v.(selLabel := Some(clicked), selToken := Some(token), selIdx := index, listbox := []);
    if found.Some? then w.(listbox := ListboxItems(found.value)) else w
  }

  /** `_replace_selected_word`: puts `word` in place of the selected token, rewrites the text, rechecks, deselects. */
  function Replace(cc: Classes, v: View, word: seq<char>, checkable: bool, words: seq<seq<char>>): View
    requires v.selIdx == -1 || 0 <= v.selIdx < |v.tokens|
  {
    if v.selIdx == -1 then v
    else
      var ts := v.tokens[v.selIdx := word];
      ResetSelection(Check(cc, v.(tokens := ts, text := Join(ts)), checkable, words))
  }

  /** `apply_suggestion` with `chosen`, the listbox line selected if any. */
  function Apply(cc: Classes, v: View, chosen: Option<seq<char>>, checkable: bool, words: seq<seq<char>>): View
    requires v.selIdx == -1 || 0 <= v.selIdx < |v.tokens|
  {
    if v.selIdx == -1 || chosen.None? || chosen.value == Placeholder then v
    else Replace(cc, v, FirstField(chosen.value), checkable, words)
  }

  /** `manual_replace_word` with `entered`, what the dialog returned (`None` when cancelled). */
  function Manual(cc: Classes, v: View, entered: Option<seq<char>>, checkable: bool, words: seq<seq<char>>): View
    requires v.selIdx == -1 || 0 <= v.selIdx < |v.tokens|
  {
    if v.selIdx == -1 || entered.None? || entered.value == [] then v
    else Replace(cc, v, entered.value, checkable, words)
  }

  // ------------------------------------------------------------ invariants

  /** The three selection fields are set and cleared together. */
  predicate SelectionCoherent(v: View)
  {
    && (v.selIdx == -1 <==> v.selLabel.None?)
    && (v.selIdx == -1 <==> v.selToken.None?)
  }

  /**
   * What every handler keeps: the preview shows `all_tokens`, and a selection
   * names an error label of the preview together with its token.
   */
  predicate Consistent(v: View)
  {
    && SelectionCoherent(v)
    && (v.preview != [] ==> |v.preview| == |v.tokens|)
    && (forall i :: 0 <= i < |v.preview| && i < |v.tokens| ==> v.preview[i].token == v.tokens[i])
    && (v.selIdx != -1 ==>
          && 0 <= v.selIdx < |v.preview|
          && v.selLabel == Some(v.selIdx)
          && v.selToken == Some(v.preview[v.selIdx].token)
          && v.preview[v.selIdx].isError)
  }

  /** A click on an error label of the preview: the only way `select_incorrect_word` is called. */
  predicate Click(v: View, clicked: nat, token: seq<char>, index: int)
  {
    clicked == index && index < |v.preview| && v.preview[index].isError && token == v.preview[index].token
  }

  lemma InitialConsistent()
    ensures Consistent(Initial())
  {
  }

  lemma ClearPreviewConsistent(v: View)
    requires SelectionCoherent(v)
    ensures Consistent(ClearPreview(v))
  {
  }

  /** Checking leaves a consistent window, whatever the text. */
  lemma CheckConsistent(cc: Classes, v: View, checkable: bool, words: seq<seq<char>>)
    requires SelectionCoherent(v)
    ensures Consistent(Check(cc, v, checkable, words))
  {
  }

  lemma SelectConsistent(v: View, clicked: nat, token: seq<char>, index: int, found: Option<seq<Suggestion>>)
    requires Consistent(v) && Click(v, clicked, token, index)
    ensures Consistent(Select(v, clicked, token, index, found))
  {
  }

  lemma ReplaceConsistent(cc: Classes, v: View, word: seq<char>, checkable: bool, words: seq<seq<char>>)
    requires Consistent(v)
    ensures v.selIdx == -1 || 0 <= v.selIdx < |v.tokens|
    ensures Consistent(Replace(cc, v, word, checkable, words))
  {
    if v.selIdx != -1 {
      var ts := v.tokens[v.selIdx := word];
      CheckConsistent(cc, v.(tokens := ts, text := Join(ts)), checkable, words);
    }
  }

  lemma ApplyConsistent(cc: Classes, v: View, chosen: Option<seq<char>>, checkable: bool, words: seq<seq<char>>)
    requires Consistent(v)
    ensures v.selIdx == -1 || 0 <= v.selIdx < |v.tokens|
    ensures Consistent(Apply(cc, v, chosen, checkable, words))
  {
    if v.selIdx != -1 && chosen.Some? && chosen.value != Placeholder {
      ReplaceConsistent(cc, v, FirstField(chosen.value), checkable, words);
    }
  }

  lemma ManualConsistent(cc: Classes, v: View, entered: Option<seq<char>>, checkable: bool, words: seq<seq<char>>)
    requires Consistent(v)
    ensures v.selIdx == -1 || 0 <= v.selIdx < |v.tokens|
    ensures Consistent(Manual(cc, v, entered, checkable, words))
  {
    if v.selIdx != -1 && entered.Some? && entered.value != [] {
      ReplaceConsistent(cc, v, entered.value, checkable, words);
    }
  }

  // ------------------------------------------------------------- properties

  /** Without a loaded checker a check only clears: statistics and tokens stay, the selection goes. */
  lemma CheckUnloaded(cc: Classes, v: View, words: seq<seq<char>>)
    ensures var r := Check(cc, v, false, words);
      && r.stats == v.stats && r.tokens == v.tokens && r.text == v.text
      && r.preview == [] && r.listbox == [] && r.selIdx == -1 && r.selToken == None
  {
  }

  /** An empty sentence shows zero words, zero errors and 100%. */
  lemma CheckEmpty(cc: Classes, v: View, words: seq<seq<char>>)
    requires forall i :: 0 <= i < |v.text| ==> cc.isSpace(v.text[i])
    ensures var r := Check(cc, v, true, words);
      r.stats == InitialStats && r.preview == [] && r.tokens == v.tokens
  {
  }

  /**
   * A check of a non-empty sentence: the tokens rebuild the stripped text, one
   * label per token, flagged exactly for unknown words, and statistics that
   * count them.
   */
  lemma CheckSentence(cc: Classes, v: View, words: seq<seq<char>>)
    requires Strip(cc, v.text) != []
    ensures var r := Check(cc, v, true, words);
      && Join(r.tokens) == Strip(cc, v.text)
      && |r.preview| == |r.tokens|
      && (forall i :: 0 <= i < |r.tokens| ==> r.preview[i].isError == IsError(cc, words, r.tokens[i]))
      && r.stats.words == WordCount(cc, r.tokens)
      && r.stats.errors == ErrorCount(cc, words, r.tokens) <= r.stats.words
      && 0 <= r.stats.accuracy <= 100
      && (r.stats.accuracy == 100 <==> r.stats.words == 0 || r.stats.errors == 0)
      && r.selIdx == -1 && r.listbox == []
  {
    var ts := Tokenize(cc, Strip(cc, v.text));
    JoinTokenize(cc, Strip(cc, v.text));
    ErrorsAtMostWords(cc, words, ts);
    AccuracyBounds(WordCount(cc, ts), ErrorCount(cc, words, ts));
    AccuracyFull(WordCount(cc, ts), ErrorCount(cc, words, ts));
  }

  /** A check keeps the text, and leaves no label selected. */
  lemma CheckKeepsText(cc: Classes, v: View, checkable: bool, words: seq<seq<char>>)
    ensures Check(cc, v, checkable, words).text == v.text
    ensures Check(cc, v, checkable, words).selLabel == None
    ensures Check(cc, v, checkable, words).preview == [] || |Strip(cc, v.text)| > 0
  {
  }

  /** Checking again without a change shows the same. */
  lemma CheckIdempotent(cc: Classes, v: View, checkable: bool, words: seq<seq<char>>)
    ensures Check(cc, Check(cc, v, checkable, words), checkable, words) == Check(cc, v, checkable, words)
  {
    var r := Check(cc, v, checkable, words);
    CheckKeepsText(cc, v, checkable, words);
    assert ClearPreview(r) == r.(preview := []);
    if checkable && Strip(cc, v.text) != [] {
      assert ResetSelection(ClearPreview(r)) == r.(preview := []);
    }
  }

  /** A replacement without a selection does nothing. */
  lemma ReplaceWithoutSelection(cc: Classes, v: View, word: seq<char>, checkable: bool, words: seq<seq<char>>)
    requires v.selIdx == -1
    ensures Replace(cc, v, word, checkable, words) == v
  {
  }

  lemma JoinSplit(ts: seq<seq<char>>, i: nat)
    requires i < |ts|
    ensures Join(ts) == Join(ts[..i]) + ts[i] + Join(ts[i + 1..])
  {
    if i > 0 {
      JoinSplit(ts[1..], i - 1);
      assert ts[1..][..i - 1] == ts[..i][1..];
      assert ts[1..][i - 1 + 1..] == ts[i + 1..];
    }
  }

  /**
   * With a selection, the new text is the old tokens with the selected one
   * replaced, and the selection is gone afterwards.
   */
  lemma ReplaceRewrites(cc: Classes, v: View, word: seq<char>, checkable: bool, words: seq<seq<char>>)
    requires 0 <= v.selIdx < |v.tokens|
    ensures var r := Replace(cc, v, word, checkable, words);
      && r.text == Join(v.tokens[..v.selIdx]) + word + Join(v.tokens[v.selIdx + 1..])
      && r.selIdx == -1 && r.selLabel == None && r.selToken == None && r.listbox == []
      && (checkable && Strip(cc, r.text) != [] ==> r.tokens == Tokenize(cc, Strip(cc, r.text)))
      && (!(checkable && Strip(cc, r.text) != []) ==> r.tokens == v.tokens[v.selIdx := word])
  {
    var ts := v.tokens[v.selIdx := word];
    var u := v.(tokens := ts, text := Join(ts));
    var c := Check(cc, u, checkable, words);
    CheckKeepsText(cc, u, checkable, words);
    assert Replace(cc, v, word, checkable, words) == ResetSelection(c);
    JoinSplit(ts, v.selIdx);
    assert ts[..v.selIdx] == v.tokens[..v.selIdx];
    assert ts[v.selIdx + 1..] == v.tokens[v.selIdx + 1..];
    if !(checkable && Strip(cc, u.text) != []) {
      assert c.tokens == ts;
    }
  }

  /** Picking nothing, the placeholder, or picking without a selection changes nothing. */
  lemma ApplyGuards(cc: Classes, v: View, chosen: Option<seq<char>>, checkable: bool, words: seq<seq<char>>)
    requires v.selIdx == -1 || 0 <= v.selIdx < |v.tokens|
    requires v.selIdx == -1 || chosen.None? || chosen == Some(Placeholder)
    ensures Apply(cc, v, chosen, checkable, words) == v
  {
  }

  /** A cancelled or empty manual entry, or one without a selection, changes nothing. */
  lemma ManualGuards(cc: Classes, v: View, entered: Option<seq<char>>, checkable: bool, words: seq<seq<char>>)
    requires v.selIdx == -1 || 0 <= v.selIdx < |v.tokens|
    requires v.selIdx == -1 || entered.None? || entered == Some([])
    ensures Manual(cc, v, entered, checkable, words) == v
  {
  }

  /**
   * Clicking an error, then picking the line of a lowercase suggestion without
   * a space, replaces the token with exactly that suggestion's word.
   */
  lemma SelectThenApply(cc: Classes, v: View, index: nat, found: seq<Suggestion>, k: nat, checkable: bool, words: seq<seq<char>>)
    requires Consistent(v) && index < |v.preview| && Click(v, index, v.preview[index].token, index)
    requires k < |found| && ' ' !in found[k].word && forall c :: c in found[k].word ==> !IsUpper(c)
    ensures var s := Select(v, index, v.preview[index].token, index, Some(found));
      && Consistent(s)
      && s.listbox[k] == DisplayText(found[k])
      && Apply(cc, s, Some(s.listbox[k]), checkable, words) == Replace(cc, s, found[k].word, checkable, words)
  {
    var s := Select(v, index, v.preview[index].token, index, Some(found));
    SelectConsistent(v, index, v.preview[index].token, index, Some(found));
    DisplayRoundTrip(found[k]);
    LowercaseNeverPlaceholder(found[k]);
  }
}
