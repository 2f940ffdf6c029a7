/**
 * `CSpellChecker`, the Python wrapper around the C library: a handle that is
 * absent when the shared library cannot be loaded, and a `loaded` flag set by
 * the last dictionary load.
 */
module Wrapper {
  import opened Wrappers
  import opened Dictionary
  import opened Suggestions

  class CSpellChecker {
    /** The loaded shared library, whose globals the C model holds; `null` when loading it failed. */
    var lib: Library?
    var loaded: bool

    ghost predicate Valid()
      reads this, lib, if lib != null then {lib.dictionary} else {}
    {
      && (loaded ==> lib != null)
      && (lib != null ==> lib.Valid())
    }

    /** `__init__`: `libraryLoads` is whether `CDLL(library_path)` succeeds. */
    constructor (libraryLoads: bool)
      ensures Valid() && !loaded
      ensures libraryLoads <==> lib != null
      ensures lib != null ==> fresh(lib) && lib.dictionary == null && lib.count == 0
    {
      if libraryLoads {
        lib := new Library();
      } else {
        lib := null;
      }
      loaded := false;
    }

    /** `load_dictionary`: refuses without a library; otherwise `loaded` records the C result. */
    method LoadDictionary(file: Option<seq<seq<char>>>) returns (ok: bool)
      requires Valid()
      modifies this, lib
      ensures Valid() && lib == old(lib)
      ensures lib == null ==> !ok && loaded == old(loaded)
      ensures lib != null ==> (ok <==> file.Some?) && loaded == ok
      ensures lib != null && ok ==> lib.Words() == KeptWords(file.value)
    {
      if lib == null {
        return false;
      }
      var success := lib.LoadDictionary(file);
      loaded := success;
      return loaded;
    }

    /** `is_word_correct`: false unless a dictionary is loaded, then the C answer. */
    method IsWordCorrect(word: seq<char>) returns (correct: bool)
      requires Valid()
      ensures !loaded || lib == null ==> !correct
      ensures loaded && lib != null ==> (correct <==> InDictionary(lib.Words(), word))
    {
      if !loaded || lib == null {
        return false;
      }
      correct := lib.IsWordCorrect(word);
    }

    /**
     * `get_suggestions`: empty unless a dictionary is loaded. The foreign call
     * itself is the function `suggest`, from the word and the tolerance to the
     * list the binding builds.
     */
    method GetSuggestions(word: seq<char>, tolerance: int, suggest: (seq<char>, int) -> seq<Suggestion>)
      returns (found: seq<Suggestion>)
      requires Valid()
      ensures !loaded || lib == null ==> found == []
      ensures loaded && lib != null ==> found == suggest(word, tolerance)
    {
      if !loaded || lib == null {
        return [];
      }
      found := suggest(word, tolerance);
    }

    /** `cleanup`: releases the C table when there is a library, then drops both. */
    method Cleanup()
      requires Valid()
      modifies this, lib
      ensures Valid() && !loaded && lib == null
      ensures old(lib) != null ==> old(lib).Valid() && old(lib).dictionary == null && old(lib).count == 0
    {
      if lib != null {
        lib.Cleanup();
      }
      loaded := false;
      lib := null;
    }
  }
}
