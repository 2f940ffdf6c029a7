/**
 * `SpellCheckerApp`, the window object of the GUI: the fields its handlers
 * update in place and the handlers themselves, each proved to take the window
 * from one state to the next exactly as the matching transition of `Session`
 * says, and to keep the window consistent.
 */
module App {
  import opened Wrappers
  import opened CStrings
  import opened Suggestions
  import opened Dictionary
  import opened CharClasses
  import opened Tokenizer
  import opened Analysis
  import opened Display
  import opened Session
  import opened Wrapper

  /** The tolerance `get_suggestions` runs with when the caller gives none. */
  const DefaultTolerance := 2

  class SpellCheckerApp {
    /** How `\w`, whitespace, `isalpha` and `lower` behave. */
    const cc: Classes
    /** `c_spell_checker`; `null` for `None`. */
    var checker: CSpellChecker?
    /** The sentence widget's content. */
    var text: seq<char>
    var allTokens: seq<seq<char>>
    var preview: seq<Label>
    var selLabel: Option<nat>
    var selToken: Option<seq<char>>
    var selIdx: int
    var listbox: seq<seq<char>>
    var stats: Stats

    /** The window's state as `Session` sees it. */
    ghost function View(): View
      reads this
    {
      Session.View(text, allTokens, preview, selLabel, selToken, selIdx, listbox, stats)
    }

    ghost predicate CheckerValid()
      reads this, checker, if checker != null then {checker.lib} else {}
      reads if checker != null && checker.lib != null then {checker.lib.dictionary} else {}
    {
      checker != null ==> checker.Valid()
    }

    ghost predicate Valid()
      reads this, checker, if checker != null then {checker.lib} else {}
      reads if checker != null && checker.lib != null then {checker.lib.dictionary} else {}
    {
      CheckerValid() && Consistent(View())
    }

    /** Whether `check_sentence` gets past its first guard: a checker with a loaded dictionary. */
    ghost predicate Checkable()
      reads this, checker
    {
      checker != null && checker.loaded
    }

    /** The words of the loaded dictionary, or none. */
    ghost function Words(): seq<seq<char>>
      reads this, checker, if checker != null then {checker.lib} else {}
      reads if checker != null && checker.lib != null then {checker.lib.dictionary} else {}
      requires CheckerValid()
    {
      if checker != null && checker.loaded then checker.lib.Words() else []
    }

    /**
     * `__init__`: the window starts empty, with no selection and the initial
     * statistics, then loads the library and the dictionary. `osSupported` is
     * whether `os.name` is `posix` or `nt`; for any other system the window is
     * destroyed before anything is loaded.
     */
    constructor (cc: Classes, osSupported: bool, libraryLoads: bool, file: Option<seq<seq<char>>>)
      ensures Valid() && this.cc == cc
      ensures !osSupported ==> checker == null && View() == Initial()
      ensures osSupported && !libraryLoads ==> checker != null && checker.lib == null && View() == Initial()
      ensures osSupported && libraryLoads && file.None? ==> checker == null && View() == Initial()
      ensures osSupported && libraryLoads && file.Some? ==>
        && Checkable() && Words() == KeptWords(file.value)
        && View() == Check(cc, Initial(), true, KeptWords(file.value))
    {
      this.cc := cc;
      checker := null;
      text := [];
      allTokens := [];
      preview := [];
      selLabel := None;
      selToken := None;
      selIdx := -1;
      listbox := [];
      stats := InitialStats;
      new;
      InitialConsistent();
      if !osSupported {
        return;
      }
      LoadFilesDirectly(libraryLoads, file);
    }

    /**
     * `_load_files_directly`: drops the current checker, creates a new one, and
     * either checks the sentence with the new dictionary or, when the
     * dictionary fails to load, drops the checker again. A library that fails
     * to load leaves a checker without one.
     */
    method LoadFilesDirectly(libraryLoads: bool, file: Option<seq<seq<char>>>)
      requires Valid()
      modifies this, checker, if checker != null then {checker.lib} else {}
      ensures Valid()
      ensures old(checker) != null ==> old(checker).lib == null && !old(checker).loaded
      ensures old(checker) != null && old(checker.lib) != null ==>
        old(checker.lib).dictionary == null && old(checker.lib).count == 0
      ensures !libraryLoads ==> checker != null && checker.lib == null && View() == old(View())
      ensures libraryLoads && file.None? ==> checker == null && View() == old(View())
      ensures libraryLoads && file.Some? ==>
        && Checkable() && Words() == KeptWords(file.value)
        && View() == Check(cc, old(View()), true, KeptWords(file.value))
    {
      if checker != null {
        checker.Cleanup();
        checker := null;
      }
      checker := new CSpellChecker(libraryLoads);
      if checker.lib == null {
        return;
      }
      var ok := checker.LoadDictionary(file);
      if ok {
        CheckSentence();
      } else {
        checker.Cleanup();
        checker := null;
      }
    }

    /** `update_stats`: the three cards from the two counts. */
    method UpdateStats(wordCount: nat, errorCount: nat)
      modifies this
      ensures stats == StatsOf(wordCount, errorCount)
      ensures View() == old(View()).(stats := stats)
      ensures checker == old(checker)
    {
      stats := StatsOf(wordCount, errorCount);
    }

    /** `clear_preview`. */
    method ClearPreview()
      modifies this
      ensures View() == Session.ClearPreview(old(View()))
      ensures checker == old(checker)
    {
      if selLabel.Some? {
        selLabel := None;
        selToken := None;
        selIdx := -1;
      }
      preview := [];
    }

    /** `reset_selection`. */
    method ResetSelection()
      modifies this
      ensures View() == Session.ResetSelection(old(View()))
      ensures checker == old(checker)
    {
      listbox := [];
      selLabel := None;
      selToken := None;
      selIdx := -1;
    }

    /**
     * `check_sentence`: the loop over the tokens counts the words, asks the
     * checker about each one, counts the unknown ones and adds one label per
     * token to the preview.
     */
    method CheckSentence()
      requires CheckerValid() && SelectionCoherent(View())
      modifies this
      ensures checker == old(checker) && CheckerValid()
      ensures View() == Check(cc, old(View()), Checkable(), Words())
      ensures Consistent(View())
    {
      ghost var target := Check(cc, View(), Checkable(), Words());
      CheckConsistent(cc, View(), Checkable(), Words());
      if checker == null || !checker.loaded {
        ClearPreview();
        listbox := [];
        ResetSelection();
        assert View() == target;
        return;
      }
      var sentence := Strip(cc, text);
      if sentence == [] {
        ClearPreview();
        UpdateStats(0, 0);
        assert View() == target;
        return;
      }
      ShowTokens(sentence);
      assert View() == target;
    }

    /** The last part of `check_sentence`, on the non-empty stripped sentence. */
    method ShowTokens(sentence: seq<char>)
      requires CheckerValid() && checker != null && checker.loaded
      modifies this
      ensures checker == old(checker)
      ensures var ts := Tokenize(cc, sentence);
        View() == Session.ResetSelection(Session.ClearPreview(old(View()))).(
          tokens := ts,
          preview := Labels(cc, checker.lib.Words(), ts),
          stats := StatsOf(WordCount(cc, ts), ErrorCount(cc, checker.lib.Words(), ts)))
    {
      ClearPreview();
      listbox := [];
      ResetSelection();
      var ts := Tokenize(cc, sentence);
      allTokens := ts;
      var wordCount, errorCount, labels := CountTokens(checker, ts);
      preview := labels;
      UpdateStats(wordCount, errorCount);
    }

    /** The loop of `check_sentence` over the tokens, asking the loaded checker `c` about each word. */
    method CountTokens(c: CSpellChecker, ts: seq<seq<char>>) returns (wordCount: nat, errorCount: nat, labels: seq<Label>)
      requires c.Valid() && c.loaded
      ensures wordCount == WordCount(cc, ts)
      ensures errorCount == ErrorCount(cc, c.lib.Words(), ts)
      ensures labels == Labels(cc, c.lib.Words(), ts)
    {
      ghost var words := c.lib.Words();
      wordCount, errorCount := 0, 0;
      labels := [];
      for i := 0 to |ts|
        invariant wordCount == WordCount(cc, ts[..i])
        invariant errorCount == ErrorCount(cc, words, ts[..i])
        invariant |labels| == i
        invariant forall k :: 0 <= k < i ==> labels[k] == Label(ts[k], IsError(cc, words, ts[k]))
      {
        var token := ts[i];
        var wordLower := LowerStr(cc, token);
        var isError := false;
        WordCountNext(cc, ts, i);
        ErrorCountNext(cc, words, ts, i);
        if IsAlphaStr(cc, wordLower) {
          wordCount := wordCount + 1;
          var correct := c.IsWordCorrect(wordLower);
          if !correct {
            isError := true;
            errorCount := errorCount + 1;
          }
        }
        labels := labels + [Label(token, isError)];
      }
      assert ts[..|ts|] == ts;
    }

    /**
     * `select_incorrect_word` for the label at `clicked`: records the
     * selection, then fills the list from the checker's suggestions for the
     * lowercased token. `suggest` is what the foreign `get_suggestions` call
     * returns. Without a checker the call raises after the selection is set,
     * which `raised` reports.
     */
    method SelectIncorrectWord(clicked: nat, token: seq<char>, index: int, suggest: (seq<char>, int) -> seq<Suggestion>)
      returns (raised: bool)
      requires Valid() && Click(View(), clicked, token, index)
      modifies this
      ensures checker == old(checker) && CheckerValid()
      ensures raised <==> checker == null
      ensures View() == Select(old(View()), clicked, token, index,
        if checker == null then None
        else if checker.loaded then Some(suggest(LowerStr(cc, token), DefaultTolerance))
        else Some([]))
      ensures Consistent(View())
    {
      selLabel := Some(clicked);
      selToken := Some(token);
      selIdx := index;
      listbox := [];
      if checker == null {
        SelectConsistent(old(View()), clicked, token, index, None);
        return true;
      }
      var found := checker.GetSuggestions(LowerStr(cc, token), DefaultTolerance, suggest);
      if found != [] {
        var items: seq<seq<char>> := [];
        for k := 0 to |found|
          invariant items == DisplayAll(found[..k])
        {
          items := items + [DisplayText(found[k])];
          assert found[..k + 1] == found[..k] + [found[k]];
        }
        assert found[..|found|] == found;
        listbox := items;
      } else {
        listbox := [Placeholder];
      }
      SelectConsistent(old(View()), clicked, token, index, Some(found));
      return false;
    }

    /**
     * `_replace_selected_word`: writes the word over the selected token,
     * rebuilds the text from the tokens, checks again and drops the selection.
     */
    method ReplaceSelectedWord(word: seq<char>)
      requires Valid()
      modifies this
      ensures checker == old(checker) && CheckerValid()
      ensures old(selIdx) == -1 || 0 <= old(selIdx) < |old(allTokens)|
      ensures View() == Replace(cc, old(View()), word, Checkable(), Words())
      ensures Consistent(View())
    {
      ghost var v0 := View();
      ReplaceConsistent(cc, v0, word, Checkable(), Words());
      if selIdx == -1 {
        return;
      }
      allTokens := allTokens[selIdx := word];
      text := Join(allTokens);
      CheckSentence();
      ResetSelection();
    }

    /**
     * `apply_suggestion`, with `selected` the list line the user picked if any:
     * nothing without a selection, without a picked line, or on the
     * placeholder; otherwise the line's first field replaces the token.
     */
    method ApplySuggestion(selected: Option<nat>)
      requires Valid() && (selected.Some? ==> selected.value < |listbox|)
      modifies this
      ensures checker == old(checker) && CheckerValid()
      ensures old(selIdx) == -1 || 0 <= old(selIdx) < |old(allTokens)|
      ensures View() == Apply(cc, old(View()),
        if selected.None? then None else Some(old(listbox)[selected.value]), Checkable(), Words())
      ensures Consistent(View())
    {
      ApplyConsistent(cc, View(), if selected.None? then None else Some(listbox[selected.value]), Checkable(), Words());
      if selIdx == -1 {
        return;
      }
      if selected.None? {
        return;
      }
      var full := listbox[selected.value];
      if full == Placeholder {
        return;
      }
      ReplaceSelectedWord(FirstField(full));
    }

    /**
     * `manual_replace_word`, with `entered` what the dialog returned (`None`
     * when cancelled): nothing without a selection or on an empty answer.
     */
    method ManualReplaceWord(entered: Option<seq<char>>)
      requires Valid()
      modifies this
      ensures checker == old(checker) && CheckerValid()
      ensures old(selIdx) == -1 || 0 <= old(selIdx) < |old(allTokens)|
      ensures View() == Manual(cc, old(View()), entered, Checkable(), Words())
      ensures Consistent(View())
    {
      ManualConsistent(cc, View(), entered, Checkable(), Words());
      if selIdx == -1 {
        return;
      }
      if entered.Some? && entered.value != [] {
        ReplaceSelectedWord(entered.value);
      }
    }

    /**
     * `on_text_change` after the user's edit left `newText` in the widget:
     * the character counter shows the stripped length. The debounced check is
     * a later call of `CheckSentence`.
     */
    method OnTextChange(newText: seq<char>) returns (charCount: nat)
      requires Valid()
      modifies this
      ensures checker == old(checker) && CheckerValid()
      ensures charCount == |Strip(cc, newText)|
      ensures (forall i :: 0 <= i < |newText| ==> cc.isSpace(newText[i])) <==> charCount == 0
      ensures View() == old(View()).(text := newText)
      ensures Consistent(View())
    {
      text := newText;
      charCount := |Strip(cc, newText)|;
    }

    /** `on_closing`: releases the checker's dictionary; the window is then destroyed. */
    method OnClosing()
      requires Valid()
      modifies checker, if checker != null then {checker.lib} else {}
      ensures checker != null ==> checker.lib == null && !checker.loaded
      ensures checker != null && old(checker.lib) != null ==> old(checker.lib).dictionary == null
    {
      if checker != null {
        checker.Cleanup();
      }
    }
  }
}
