# Spell checker: a verified model

The system is a desktop spell checker in two parts:

- **The C backend** (`Backend/spellcheckfunc.c`, byte-for-byte the same as `Backend/SpellCheck.c`). It keeps a global table of lowercase dictionary words. It answers whether a word is in the table. It lists the table words within a Damerau–Levenshtein distance of a misspelling, sorted by distance and then alphabetically.
- **The Tkinter GUI** (`Gui/newg.py`). It wraps the backend in `CSpellChecker`. It splits the sentence into tokens, flags the unknown words, and shows word, error and accuracy counts. The user can click a flagged word, pick a suggestion or type a replacement, and the GUI rebuilds the sentence and checks it again.

The Dafny project models the core of both parts and proves what each operation computes.

| file | module | models |
|---|---|---|
| `wrappers.dfy` | `Wrappers` | `Option` |
| `cstrings.dfy` | `CStrings` | C strings: NUL termination, `strncpy`, `tolower`, `strcmp`, and strings joined end to end |
| `distance.dfy` | `EditDistance` | `damerau_levenshtein_distance`: a recursive definition, and the table fill proved to compute it |
| `suggestions.dfy` | `Suggestions` | `Suggestion`, the order of `sort_suggestions`, the sort itself, and the filters of `get_suggestions` |
| `dictionary.dfy` | `Dictionary` | `fgets` chunking, line processing, the global table (class `Library`): `load_dictionary`, `is_word_correct`, `get_suggestions`, `cleanup` |
| `charclasses.dfy` | `CharClasses` | Python's `\w`, `\s`, `isalpha` and `lower`, as abstract per-character functions, plus an ASCII instance |
| `tokenizer.dfy` | `Tokenizer` | `re.findall(r"(\w+\|[^\w\s]+\|\s+)", …)` and `str.strip()` |
| `analysis.dfy` | `Analysis` | word and error counts, and the accuracy percentage |
| `display.dfy` | `Display` | the suggestion list's lines, the placeholder, and `split(' ')[0]` |
| `wrapper.dfy` | `Wrapper` | class `CSpellChecker` |
| `session.dfy` | `Session` | the window's state as a value, each handler as a transition, and the invariant they keep |
| `app.dfy` | `App` | class `SpellCheckerApp`: the handlers as methods over the window's fields, proved equal to the `Session` transitions |
| `scenarios.dfy` | `Scenarios` | a worked session: "The quik fox" is checked, then corrected |

**Inputs the model takes as parameters.**

- A dictionary file is `Option<seq<seq<char>>>`. `None` means `fopen` fails. Otherwise it is the chunks `fgets` reads; `FgetsChunks` computes them from file contents.
- Whether `CDLL(...)` loads is a boolean.
- The foreign `get_suggestions` call made from Python is a function parameter `suggest`. The reason is under "Left out".
- The user supplies the clicked label, the list line picked, the dialog answer and the typed text.

## Model

| member | source | states |
|---|---|---|
| CStrings.CStr | Backend/spellcheckfunc.c:176-178 | The string the C code sees in a buffer: it has no NUL, is a prefix of the buffer, and is followed by a NUL when shorter than the buffer |
| CStrings.Prefix | Backend/spellcheckfunc.c:154-155 | `strncpy` of at most n characters plus the terminator keeps a prefix of length min(n, length) |
| CStrings.LowerAll | Backend/spellcheckfunc.c:130-132 | Lowering keeps the length, applies `tolower` at every position, and leaves no capital letter |
| CStrings.StrLessIrreflexive | Backend/spellcheckfunc.c:264 | `strcmp(a, a) < 0` never holds |
| CStrings.StrLessTransitive | Backend/spellcheckfunc.c:264 | The `strcmp` order is transitive |
| CStrings.StrLessTotal | Backend/spellcheckfunc.c:264 | For two different strings, one is `strcmp`-less than the other |
| EditDistance.DamerauLevenshteinDistance | Backend/spellcheckfunc.c:41-101 | The table fill, including the early returns for an empty string, returns `Distance(s1, s2)`, the optimal-string-alignment recurrence with adjacent transposition |
| EditDistance.FillRow | Backend/spellcheckfunc.c:75-90 | Filling row i from the rows above makes every cell of rows 0..i equal to the recurrence and leaves later rows alone |
| EditDistance.FillCell | Backend/spellcheckfunc.c:77-88 | One cell gets the minimum of deletion, insertion, substitution and, on a swap of the last two characters, transposition; no other cell changes |
| EditDistance.DistanceToEmpty | Backend/spellcheckfunc.c:45-46 | Against the empty string the distance is the other string's length |
| EditDistance.DistanceToSelf | Backend/spellcheckfunc.c:41-101 | A string is at distance 0 from itself |
| EditDistance.DistanceZeroIffEqual | Backend/spellcheckfunc.c:41-101 | The distance is 0 exactly when the strings are equal |
| EditDistance.DistanceBounds | Backend/spellcheckfunc.c:66-90 | The length difference is at most the distance, which is at most the longer length |
| EditDistance.AdjacentSwap | Backend/spellcheckfunc.c:84-88 | Swapping two adjacent different characters costs exactly one edit |
| EditDistance.NaywayAnyway | Backend/spellcheckfunc.c:301 | The value printed for ("nayway", "anyway") is 1 |
| Suggestions.LessIrreflexive | Backend/spellcheckfunc.c:263-264 | No suggestion sorts before itself |
| Suggestions.LessTransitive | Backend/spellcheckfunc.c:263-264 | The sort order (distance, then `strcmp`) is transitive |
| Suggestions.SortedIsNondecreasing | Backend/spellcheckfunc.c:259-271 | In a sorted list, distances never decrease, and among equal distances the words are in `strcmp` order |
| Suggestions.Swap | Backend/spellcheckfunc.c:265-267 | Exchanges entries i and j and nothing else |
| Suggestions.SortSuggestions | Backend/spellcheckfunc.c:260-271 | The first `count` entries (none when count is negative) end sorted and are a permutation of what was there; the rest of the array is unchanged |
| Suggestions.ExchangeKeepsOrder | Backend/spellcheckfunc.c:261-269 | One exchange of the inner loop keeps the sorted prefix sorted, makes entry i minimal so far, and permutes the array |
| Suggestions.MatchesSound | Backend/spellcheckfunc.c:217-250 | Each match is a dictionary word, not shorter than the misspelling and at most `length_tolerance` longer, with its exact distance, which lies between 0 and `tolerance` |
| Suggestions.MatchesComplete | Backend/spellcheckfunc.c:217-250 | Every dictionary word that passes the three filters is among the matches, with its distance |
| Suggestions.MatchesPrefix | Backend/spellcheckfunc.c:217-250 | Scanning part of the dictionary yields a prefix of the full match list, so stopping early keeps the first matches in order |
| Dictionary.ChunkLength | Backend/spellcheckfunc.c:125 | One `fgets` call reads between 1 and 255 characters and stops right after the first newline |
| Dictionary.FgetsChunksJoin | Backend/spellcheckfunc.c:125 | The chunks read by `fgets`, joined, are the file's contents |
| Dictionary.FgetsChunksShape | Backend/spellcheckfunc.c:122-125 | Every chunk is non-empty, fits the 256-byte buffer, and has a newline only at its end |
| Dictionary.CutAtLineEnd | Backend/spellcheckfunc.c:127 | The cut line is the longest prefix without newline, carriage return or NUL |
| Dictionary.Lowercase | Backend/spellcheckfunc.c:130-132 | The lowering loop computes `LowerAll` of the line |
| Dictionary.KeptWordsMembers | Backend/spellcheckfunc.c:125-160 | A word ends up in the table exactly when it is shorter than 50 characters and some chunk, cut and lowered, is that word |
| Dictionary.KeptWordsStored | Backend/spellcheckfunc.c:127-155 | Every kept word is under 50 characters and has no line end, NUL or capital letter |
| Dictionary.KeptWordsAppend | Backend/spellcheckfunc.c:125-160 | The words kept from two files read one after the other are those of the first, then those of the second |
| Dictionary.GrownLeast | Backend/spellcheckfunc.c:138-140 | The capacity after the doublings is 375000 times a power of two, holds every word, and is under twice what was needed, unless it is still the initial capacity |
| Dictionary.GrownNext | Backend/spellcheckfunc.c:138-140 | Adding one word doubles the capacity exactly when the table is full |
| Dictionary.GrownExact | Backend/spellcheckfunc.c:138-140 | When k doublings are the fewest that fit n words, the capacity is exactly 375000 times 2^k |
| Dictionary.CapacityOverflow | Backend/spellcheckfunc.c:138-140 | The capacity is 1,536,000,000 for that many words, which fits a 32-bit `int`. It becomes 3,072,000,000 for one word more, which does not |
| Dictionary.KeyOfStoredWord | Backend/spellcheckfunc.c:176-181 | A word that could be a table entry is its own lookup key |
| Dictionary.LowerKey | Backend/spellcheckfunc.c:176-181 | The copy-and-lower of the input is the first 49 characters of its C string, lowered |
| Dictionary.Library.constructor | Backend/spellcheckfunc.c:26-28 | The globals start with no table, count 0 and capacity 0 |
| Dictionary.Library.Cleanup | Backend/spellcheckfunc.c:275-283 | Frees the table and zeroes the count and capacity, from any state |
| Dictionary.Library.LoadDictionary | Backend/spellcheckfunc.c:105-166 | Succeeds exactly when the file opens. On failure the state is cleared. On success the table is fresh and holds exactly the kept words in file order, with the capacity given by the doubling rule |
| Dictionary.Library.Store | Backend/spellcheckfunc.c:137-156 | Appends one word after growing a full table, and keeps the table invariant |
| Dictionary.Library.Grow | Backend/spellcheckfunc.c:138-153 | The reallocation doubles the capacity and keeps the used entries |
| Dictionary.Library.IsWordCorrect | Backend/spellcheckfunc.c:170-195 | The answer is yes exactly when the lowered 49-character key is in the table; it is no when there is no table or the table is empty |
| Dictionary.Library.GetSuggestions | Backend/spellcheckfunc.c:200-257 | Returns min(number of matches, 1000). The array's first entries are sorted and are a permutation of the first matches in dictionary order; the rest of the array is untouched |
| Dictionary.Library.Collect | Backend/spellcheckfunc.c:215-250 | The scan with its two `continue`s and its `break` writes exactly the first min(matches, 1000) matches, in dictionary order |
| CharClasses.Ascii | Gui/newg.py:539 | The ASCII reading of the classes satisfies the one fact the analysis needs: a character that lowers to a letter is a word character |
| Tokenizer.RunLength | Gui/newg.py:539 | The greedy run of one alternative covers characters of its class and stops at the first one outside it |
| Tokenizer.JoinTokenize | Gui/newg.py:539 | The tokens joined give back the text: `findall` with these three alternatives skips nothing |
| Tokenizer.TokenizeWellShaped | Gui/newg.py:539 | Every token is a non-empty run of the alternative its first character selects, and no run can be extended into the next token |
| Tokenizer.TokenizeUnique | Gui/newg.py:539 | Any split of the text into such maximal runs is the tokenizer's result |
| Tokenizer.AdjacentKindsDiffer | Gui/newg.py:539 | Neighbouring tokens come from different alternatives |
| Tokenizer.TokenizeEmpty | Gui/newg.py:539 | Only the empty text has no tokens |
| Tokenizer.TokenIsRun | Gui/newg.py:539 | Each token is a run of one class |
| Tokenizer.Strip | Gui/newg.py:526 | `strip()` removes leading and trailing whitespace only, starts and ends the result on non-whitespace, and is empty exactly for all-whitespace text |
| Analysis.LowerStr | Gui/newg.py:547 | `token.lower()` is the per-character lowering |
| Analysis.CountsArePositions | Gui/newg.py:542-555 | The word count is the number of tokens whose lowercase is alphabetic; the error count is the number of those unknown to the dictionary |
| Analysis.ErrorsAtMostWords | Gui/newg.py:550-554 | There are never more errors than words |
| Analysis.NonAlphaNotCounted | Gui/newg.py:550 | A token with a character whose lowercase is not a letter is neither counted nor flagged |
| Analysis.NonWordTokenNotCounted | Gui/newg.py:539-555 | Tokens are non-empty, and punctuation and whitespace tokens are neither counted nor flagged |
| Analysis.AccuracyBounds | Gui/newg.py:455 | With no more errors than words the accuracy is between 0 and 100, and it is the percentage of correct words rounded down |
| Analysis.AccuracyFull | Gui/newg.py:455 | The accuracy is 100 exactly when there are no words or no errors |
| Analysis.EmptyStats | Gui/newg.py:322-324 | The statistics for an empty sentence equal the initial cards 0, 0 and 100% |
| Analysis.TwoOfThree | Gui/newg.py:455 | Two correct words out of three show 66, because the code truncates |
| Display.Similarity | Gui/newg.py:647 | The similarity percentage is never negative, at most 100 for a valid distance, at most 90 for a non-zero one, and 0 from distance 10 on |
| Display.NatToString | Gui/newg.py:647 | The decimal text of a number is non-empty and made of digits |
| Display.ListboxItems | Gui/newg.py:643-651 | One line per suggestion with its display text, or the placeholder alone when there are none |
| Display.FirstField | Gui/newg.py:669 | `split(' ')[0]` is the longest prefix without a space |
| Display.DisplayRoundTrip | Gui/newg.py:645-669 | Reading a suggestion's line back gives its word, when the word has no space |
| Display.SpacedWordCut | Gui/newg.py:669 | A dictionary entry with a space comes back cut: "new york" gives "new" |
| Display.DisplayedAsPlaceholder | Gui/newg.py:645-667 | A line equals the placeholder only for an exact match whose word is the placeholder text |
| Display.LowercaseNeverPlaceholder | Gui/newg.py:664-667 | A lowercase suggestion, as the dictionary holds them, is never mistaken for the placeholder |
| Wrapper.CSpellChecker.constructor | Gui/newg.py:14-38 | Starts unloaded, with a library exactly when `CDLL` loads, and that library's table empty |
| Wrapper.CSpellChecker.LoadDictionary | Gui/newg.py:41-50 | Refuses without a library; otherwise `loaded` records the C result and the table holds the file's kept words |
| Wrapper.CSpellChecker.IsWordCorrect | Gui/newg.py:52-55 | No unless loaded; otherwise the C answer for the word |
| Wrapper.CSpellChecker.GetSuggestions | Gui/newg.py:57-76 | Empty unless loaded; otherwise what the foreign call returns |
| Wrapper.CSpellChecker.Cleanup | Gui/newg.py:78-83 | Frees the C table when there is a library, then drops the library and the flag |
| Session.Labels | Gui/newg.py:546-560 | One label per token, flagged exactly when the token is an unknown word |
| Session.InitialConsistent | Gui/newg.py:147-151 | The window after construction is consistent |
| Session.ClearPreviewConsistent | Gui/newg.py:608-617 | Clearing the preview leaves a consistent window |
| Session.CheckConsistent | Gui/newg.py:516-569 | Checking leaves a consistent window, whatever the text and whether or not a dictionary is loaded |
| Session.SelectConsistent | Gui/newg.py:619-652 | Selecting a clicked error label keeps the window consistent |
| Session.ReplaceConsistent | Gui/newg.py:688-705 | A selection always indexes `all_tokens`, so the write at line 693 is in range, and replacing keeps the window consistent |
| Session.ApplyConsistent | Gui/newg.py:654-670 | Applying a suggestion keeps the window consistent |
| Session.ManualConsistent | Gui/newg.py:672-686 | A manual replacement keeps the window consistent |
| Session.CheckUnloaded | Gui/newg.py:518-524 | Without a loaded checker, a check only clears the preview, the list and the selection; text, tokens and statistics stay |
| Session.CheckEmpty | Gui/newg.py:528-531 | A blank sentence shows 0 words, 0 errors and 100% and no labels, and keeps the old tokens |
| Session.CheckSentence | Gui/newg.py:533-560 | On a non-blank sentence: the tokens rebuild the stripped text, there is one label per token flagged exactly for unknown words, the counts are those counts with errors at most words, the accuracy is a percentage that is 100 exactly when there are no words or no errors, and no selection remains |
| Session.CheckKeepsText | Gui/newg.py:516-569 | A check never changes the text and always leaves no label selected |
| Session.CheckIdempotent | Gui/newg.py:516-569 | Checking twice in a row shows the same as checking once |
| Session.ReplaceWithoutSelection | Gui/newg.py:690-691 | Replacing without a selection changes nothing |
| Session.ReplaceRewrites | Gui/newg.py:693-705 | The new text is the old tokens with the selected one replaced, the window is rechecked, and the selection is gone |
| Session.ApplyGuards | Gui/newg.py:656-667 | No selection, no picked line, or the placeholder line: nothing changes |
| Session.ManualGuards | Gui/newg.py:674-686 | No selection, or a cancelled or empty answer: nothing changes |
| Session.SelectThenApply | Gui/newg.py:619-670 | Clicking an error and picking the line of a lowercase, space-free suggestion replaces the token with exactly that word |
| App.SpellCheckerApp.constructor | Gui/newg.py:88-154 | The window starts empty with no selection and the initial statistics. On a system other than posix or nt nothing is loaded and there is no checker. Otherwise it loads, with the outcomes of `LoadFilesDirectly` |
| App.SpellCheckerApp.LoadFilesDirectly | Gui/newg.py:489-514 | Any previous checker is released first: its library is dropped, its flag cleared and its C table freed. A library that fails to load leaves a checker without a library and the window unchanged. A dictionary that fails to load leaves no checker and the window unchanged. Otherwise the loaded dictionary holds the file's words and the window is the check of the old window |
| App.SpellCheckerApp.UpdateStats | Gui/newg.py:453-458 | The cards show the two counts and their accuracy; nothing else changes |
| App.SpellCheckerApp.ClearPreview | Gui/newg.py:608-617 | Performs the `clear_preview` transition |
| App.SpellCheckerApp.ResetSelection | Gui/newg.py:707-726 | Performs the `reset_selection` transition |
| App.SpellCheckerApp.CheckSentence | Gui/newg.py:516-569 | The window becomes `Check` of the old window with the checker's dictionary, and stays consistent |
| App.SpellCheckerApp.ShowTokens | Gui/newg.py:533-560 | After the clear, the window holds the sentence's tokens, their labels and their statistics |
| App.SpellCheckerApp.CountTokens | Gui/newg.py:542-555 | The loop's word count, error count and labels are `WordCount`, `ErrorCount` and `Labels` of the tokens under the checker's dictionary |
| App.SpellCheckerApp.SelectIncorrectWord | Gui/newg.py:619-652 | Records the selection, then fills the list from the checker's suggestions (empty if not loaded). Raises exactly when there is no checker, after the selection is set |
| App.SpellCheckerApp.ReplaceSelectedWord | Gui/newg.py:688-705 | The window becomes `Replace` of the old window and stays consistent |
| App.SpellCheckerApp.ApplySuggestion | Gui/newg.py:654-670 | The window becomes `Apply` of the old window with the picked line, and stays consistent |
| App.SpellCheckerApp.ManualReplaceWord | Gui/newg.py:672-686 | The window becomes `Manual` of the old window with the dialog's answer, and stays consistent |
| App.SpellCheckerApp.OnTextChange | Gui/newg.py:442-451 | The counter shows the stripped length, which is 0 exactly for blank text; only the text changes |
| App.SpellCheckerApp.OnClosing | Gui/newg.py:728-732 | Closing frees the checker's C table and drops its library |
| Scenarios.CheckQuikFox | Gui/newg.py:516-569 | Checking "The quik fox" against {the, quick, fox} gives tokens The, space, quik, space, fox, with 3 words, 1 error and 66%, and "quik" flagged |
| Scenarios.CheckQuickFox | Gui/newg.py:516-569 | Checking "The quick fox" gives 3 words, 0 errors and 100% |
| Scenarios.FixQuikFox | Gui/newg.py:688-705 | Replacing the selected "quik" with "quick" gives the text "The quick fox" with no error |
| Scenarios.QuikMatches | Backend/spellcheckfunc.c:200-250 | The C search for "quik" in {the, quick, fox}, with the GUI's default tolerance 2 and, for the two arguments the GUI does not pass, the C driver's values (the word's length, length tolerance 2), finds exactly "quick" at distance 1 |
| Scenarios.PickQuick | Gui/newg.py:619-670 | Clicking "quik", with the list filled from what the C search finds, and applying its one line "quick" gives "The quick fox" with 3 words, 0 errors and 100% |

## Left out

- Presentation is not modelled: Tk widgets, colours, fonts, status texts and icons, button enabling, hover handlers, and stat-card colours (`Gui/newg.py:460-472`). The model keeps only what the window holds.
- The 300 ms debounce timer of `on_text_change` is not modelled. The check it schedules is a later call of `CheckSentence`.
- `on_canvas_configure` (`Gui/newg.py:483-487`) only resizes the preview and re-runs the check. A resize is a call of `CheckSentence`.
- The foreign-function layer is not modelled. This covers UTF-8 encoding and decoding, and ctypes argument conversion.
  - Python declares and calls `get_suggestions` with three arguments, while the C function takes five, and passes a five-entry buffer that the C code may fill with up to 1000 entries. The outcome is undefined, so `Wrapper.CSpellChecker.GetSuggestions` takes the call's result as the parameter `suggest`. `Dictionary.Library.GetSuggestions` models the C function on its own terms, with all five arguments.
- The model gets a fresh `Library` per `CSpellChecker`. In the source, a second `CDLL` load of the same file shares the C globals. `Wrapper.CSpellChecker.constructor` does not state that sharing.
- `fopen` and `fgets` are modelled only as their results (`None`, or the chunks). `fclose` and file-system errors other than a failed open are left out.
- The `malloc` and `realloc` failure paths are left out (allocation cannot fail in Dafny). This covers the -1 return of `damerau_levenshtein_distance` and the failure returns of `load_dictionary` at lines 116-120 and 142-151.
- `Dictionary.Library.LoadDictionary` does not model the 32-bit `int` overflow of `dictionary_capacity *= 2`, nor the count's overflow. Integers are unbounded in the model. The capacity overflows on the 13th doubling, when word 1,536,000,001 is kept (`Dictionary.CapacityOverflow`). The count overflows only after 2^31 − 1 kept words.
- All `printf`, `fprintf` and `perror` output, and `print` in Python, are left out, as is C's `main()` except the value it prints for ("nayway", "anyway").
- `Analysis.AccuracyBounds`: the Python expression is floating point. The model uses exact integer truncation toward zero. It does not claim bit-exact agreement with the float result, which can be off by one in rare cases.
- Python's Unicode `\w`, `\s`, `isalpha` and `lower` are abstract per-character functions in `CharClasses`. Lowerings that change a string's length are not modelled. Only the ASCII instance is concrete.
- The C code works on bytes and Python passes UTF-8. The model treats one character as one byte.
- The ignore button has no command in the source, so it has no model.
- `App.SpellCheckerApp.constructor`: for an unsupported system (`Gui/newg.py:130-137`) the source shows an error, destroys the window and returns before the selection attributes exist. The model does not capture the destroyed window or the missing attributes. It keeps the initial view and no checker.
- `App.SpellCheckerApp.SelectIncorrectWord` requires that the call comes from a click on an error label of the current preview (`Session.Click`), the only way the source can call it.
- `App.SpellCheckerApp.ApplySuggestion` requires the picked line index to be within the list, as Tk's `curselection` guarantees.
- `Wrapper.CSpellChecker.GetSuggestions` does not state the contents of the foreign result. See the foreign-function item above.
