/**
 * The global dictionary table of the C backend (`dictionary`,
 * `dictionary_count`, `dictionary_capacity`) and the four operations on it:
 * `load_dictionary`, `is_word_correct`, `get_suggestions` and `cleanup`.
 *
 * The dictionary file is given as what `fgets` delivers from it: `None` when it
 * cannot be opened, otherwise the sequence of chunks read into the 256-byte
 * line buffer.
 */
module Dictionary {
  import opened Wrappers
  import opened CStrings
  import opened EditDistance
  import opened Suggestions

  /** `DICTIONARY_SIZE`: the initial capacity of the table. */
  const DictionarySize := 375000

  /** `MAX_LINE_LEN`: the size of the `fgets` buffer, terminating NUL included. */
  const MaxLineLen := 256

  // ---------------------------------------------------------------- file input

  /** How much of `content` one `fgets` call consumes: through the first newline, at most 255 characters. */
  function ChunkLength(content: seq<char>): (k: nat)
    requires content != []
    ensures 0 < k <= |content| && k < MaxLineLen
    ensures forall i :: 0 <= i < k - 1 ==> content[i] != '\n'
    ensures k < |content| && k < MaxLineLen - 1 ==> content[k - 1] == '\n'
  {
    if content[0] == '\n' || |content| == 1 then 1
    else ChunkLengthFrom(content, 1)
  }

  function ChunkLengthFrom(content: seq<char>, k: nat): (r: nat)
    requires 0 < k < |content| && k < MaxLineLen - 1
    requires forall i :: 0 <= i < k ==> content[i] != '\n'
    ensures k < r <= |content| && r < MaxLineLen
    ensures forall i :: 0 <= i < r - 1 ==> content[i] != '\n'
    ensures r < |content| && r < MaxLineLen - 1 ==> content[r - 1] == '\n'
    decreases MaxLineLen - k
  {
    if content[k] == '\n' || k + 1 == |content| || k + 1 == MaxLineLen - 1 then k + 1
    else ChunkLengthFrom(content, k + 1)
  }

  /** The successive strings `fgets(line, 256, file)` reads from a file holding `content`. */
  function FgetsChunks(content: seq<char>): seq<seq<char>>
    decreases |content|
  {
    if content == [] then []
    else
      var k := ChunkLength(content);
      [content[..k]] + FgetsChunks(content[k..])
  }

  /** `fgets` loses nothing: the chunks put back together are the file. */
  lemma {:induction false} FgetsChunksJoin(content: seq<char>)
    ensures Join(FgetsChunks(content)) == content
    decreases |content|
  {
    if content != [] {
      var k := ChunkLength(content);
      FgetsChunksJoin(content[k..]);
      assert content == content[..k] + content[k..];
    }
  }

  /** Every chunk is non-empty, fits the buffer, and holds a newline only as its last character. */
  lemma {:induction false} FgetsChunksShape(content: seq<char>, n: nat)
    requires n < |FgetsChunks(content)|
    ensures var c := FgetsChunks(content)[n];
      && 0 < |c| < MaxLineLen
      && forall i :: 0 <= i < |c| - 1 ==> c[i] != '\n'
    decreases |content|
  {
    if n > 0 {
      FgetsChunksShape(content[ChunkLength(content)..], n - 1);
    }
  }

  // ---------------------------------------------------------- line processing

  /** `line[strcspn(line, "\n\r")] = 0` on a C string: what precedes the first newline, carriage return or NUL. */
  function CutAtLineEnd(s: seq<char>): (r: seq<char>)
    ensures r <= s
    ensures forall c :: c in r ==> c != '\n' && c != '\r' && c != '\0'
    ensures |r| < |s| ==> s[|r|] in {'\n', '\r', '\0'}
  {
    if s == [] || s[0] in {'\n', '\r', '\0'} then [] else [s[0]] + CutAtLineEnd(s[1..])
  }

  /** The word a chunk becomes: cut at the line end, then lowercased. */
  function ProcessLine(chunk: seq<char>): seq<char>
  {
    LowerAll(CutAtLineEnd(chunk))
  }

  /** The `for (i = 0; s[i]; i++) s[i] = tolower(s[i])` loop, on a string without NUL. */
  method Lowercase(s: seq<char>) returns (r: seq<char>)
    ensures r == LowerAll(s)
  {
    r := [];
    for i := 0 to |s|
      invariant r == LowerAll(s[..i])
    {
      r := r + [ToLower(s[i])];
    }
    assert s[..|s|] == s;
  }

  /** What a table entry can hold: under `MAX_WORD_LEN` characters, no line end, no NUL, no capital. */
  predicate StoredWord(w: seq<char>)
  {
    && |w| < MaxWordLen
    && (forall c :: c in w ==> c != '\n' && c != '\r' && c != '\0')
    && (forall c :: c in w ==> !IsUpper(c))
  }

  /** The words a load keeps from `chunks`, in file order: every processed line shorter than fifty. */
  function KeptWords(chunks: seq<seq<char>>): (r: seq<seq<char>>)
    ensures |r| <= |chunks|
  {
    if chunks == [] then []
    else
      var w := ProcessLine(chunks[|chunks| - 1]);
      KeptWords(chunks[..|chunks| - 1]) + (if |w| < MaxWordLen then [w] else [])
  }

  lemma KeptWordsNext(chunks: seq<seq<char>>, i: nat)
    requires i < |chunks|
    ensures var w := ProcessLine(chunks[i]);
      KeptWords(chunks[..i + 1]) == KeptWords(chunks[..i]) + (if |w| < MaxWordLen then [w] else [])
  {
    assert chunks[..i + 1][..i] == chunks[..i];
  }

  /** A processed line short enough to keep is a valid table entry. */
  lemma ProcessLineStored(chunk: seq<char>)
    requires |ProcessLine(chunk)| < MaxWordLen
    ensures StoredWord(ProcessLine(chunk))
  {
    var cut := CutAtLineEnd(chunk);
    var w := LowerAll(cut);
    forall c | c in w
      ensures c != '\n' && c != '\r' && c != '\0'
    {
      var i :| 0 <= i < |w| && w[i] == c;
      assert cut[i] in cut;
    }
  }

  /** Every kept word is a valid table entry. */
  lemma {:induction false} KeptWordsStored(chunks: seq<seq<char>>)
    ensures forall w :: w in KeptWords(chunks) ==> StoredWord(w)
  {
    if chunks != [] {
      KeptWordsStored(chunks[..|chunks| - 1]);
      var w := ProcessLine(chunks[|chunks| - 1]);
      if |w| < MaxWordLen {
        ProcessLineStored(chunks[|chunks| - 1]);
      }
    }
  }

  /** A word is kept exactly when some chunk's processed line is it and it is short enough. */
  lemma {:induction false} KeptWordsMembers(chunks: seq<seq<char>>, w: seq<char>)
    ensures w in KeptWords(chunks) <==> |w| < MaxWordLen && exists i :: 0 <= i < |chunks| && ProcessLine(chunks[i]) == w
  {
    if chunks != [] {
      var n := |chunks| - 1;
      var init := chunks[..n];
      var last := ProcessLine(chunks[n]);
      KeptWordsMembers(init, w);
      assert KeptWords(chunks) == KeptWords(init) + (if |last| < MaxWordLen then [last] else []);
      SomeLineSplit(chunks, init, w);
    }
  }

  /** Some chunk processes to `w` exactly when an earlier one does or the last one does. */
  lemma SomeLineSplit(chunks: seq<seq<char>>, init: seq<seq<char>>, w: seq<char>)
    requires chunks != [] && init == chunks[..|chunks| - 1]
    ensures (exists i :: 0 <= i < |chunks| && ProcessLine(chunks[i]) == w) <==>
      (exists i :: 0 <= i < |init| && ProcessLine(init[i]) == w) || ProcessLine(chunks[|chunks| - 1]) == w
  {
    if exists i :: 0 <= i < |init| && ProcessLine(init[i]) == w {
      var i :| 0 <= i < |init| && ProcessLine(init[i]) == w;
      assert chunks[i] == init[i];
    }
    if exists i :: 0 <= i < |chunks| && ProcessLine(chunks[i]) == w {
      var i :| 0 <= i < |chunks| && ProcessLine(chunks[i]) == w;
      if i < |init| {
        assert init[i] == chunks[i];
      }
    }
  }

  /** Loading two files' worth of chunks keeps the words of each, in order. */
  lemma {:induction false} KeptWordsAppend(a: seq<seq<char>>, b: seq<seq<char>>)
    ensures KeptWords(a + b) == KeptWords(a) + KeptWords(b)
    decreases |b|
  {
    if b == [] {
      assert a + b == a;
    } else {
      var b' := b[..|b| - 1];
      KeptWordsAppend(a, b');
      assert (a + b)[..|a + b| - 1] == a + b';
    }
  }

  // ------------------------------------------------------------------ growth

  function Pow2(k: nat): nat
  {
    if k == 0 then 1 else 2 * Pow2(k - 1)
  }

  /** The capacity after doubling `cap` until `n` entries fit. */
  function Grown(cap: nat, n: nat): nat
    requires cap > 0
    decreases n - cap
  {
    if n <= cap then cap else Grown(2 * cap, n)
  }

  /** `Grown` is the least power-of-two multiple of `cap` that holds `n` entries. */
  lemma {:induction false} GrownLeast(cap: nat, n: nat)
    requires cap > 0
    ensures n <= Grown(cap, n)
    ensures exists k: nat :: Grown(cap, n) == cap * Pow2(k)
    ensures Grown(cap, n) == cap || Grown(cap, n) < 2 * n
    decreases n - cap
  {
    if n <= cap {
      assert cap == cap * Pow2(0);
    } else {
      GrownLeast(2 * cap, n);
      var k: nat :| Grown(2 * cap, n) == 2 * cap * Pow2(k);
      assert Grown(cap, n) == cap * Pow2(k + 1);
    }
  }

  /** One more entry doubles the capacity exactly when the table is full. */
  lemma {:induction false} GrownNext(cap: nat, n: nat)
    requires cap > 0
    ensures Grown(cap, n + 1) == if n == Grown(cap, n) then 2 * Grown(cap, n) else Grown(cap, n)
    decreases n - cap
  {
    if n > cap {
      GrownNext(2 * cap, n);
    }
  }

  /** After `k` doublings the capacity is `cap * 2^k`, when `k` is the least count that fits `n`. */
  lemma {:induction false} GrownExact(cap: nat, n: nat, k: nat)
    requires cap > 0 && n <= cap * Pow2(k)
    requires k > 0 ==> cap * Pow2(k - 1) < n
    ensures Grown(cap, n) == cap * Pow2(k)
    decreases k
  {
    if k > 0 {
      assert cap * Pow2(k) == 2 * cap * Pow2(k - 1);
      if k > 1 {
        assert cap * Pow2(k - 1) == 2 * cap * Pow2(k - 2);
      }
      GrownExact(2 * cap, n, k - 1);
    }
  }

  /**
   * The capacity of a 32-bit `int` is enough for 1,536,000,000 words: twelve
   * doublings of 375000. Keeping one more word doubles it to 3,072,000,000,
   * past the largest `int`.
   */
  lemma CapacityOverflow()
    ensures Grown(DictionarySize, 1536000000) == 1536000000 <= 0x7FFF_FFFF
    ensures Grown(DictionarySize, 1536000001) == 3072000000 > 0x7FFF_FFFF
  {
    assert Pow2(12) == 4096 && Pow2(13) == 8192 by {
      assert Pow2(4) == 16;
      assert Pow2(8) == 256;
    }
    GrownExact(DictionarySize, 1536000000, 12);
    GrownExact(DictionarySize, 1536000001, 13);
  }

  // -------------------------------------------------------------- the lookup

  /** The string `is_word_correct` and `get_suggestions` look up: the first 49 characters of the C string, lowercased. */
  function Key(word: seq<char>): seq<char>
  {
    LowerAll(Prefix(CStr(word), MaxWordLen - 1))
  }

  /** What `is_word_correct` answers for a table holding `words`. */
  predicate InDictionary(words: seq<seq<char>>, word: seq<char>)
  {
    Key(word) in words
  }

  /** The key never exceeds a buffer, and a word already in table form is its own key. */
  lemma KeyOfStoredWord(w: seq<char>)
    requires StoredWord(w)
    ensures Key(w) == w
  {
    CStrWithoutNul(w);
    assert LowerAll(w) == w;
  }

  /**
   * `strncpy(lower_word, word, 49)` followed by the lowercasing loop: the copy
   * stops at the first NUL or after 49 characters.
   */
  method LowerKey(word: seq<char>) returns (key: seq<char>)
    ensures key == Key(word)
  {
    var n := 0;
    while n < |word| && n < MaxWordLen - 1 && word[n] != '\0'
      invariant n <= |word| && n <= MaxWordLen - 1
      invariant '\0' !in word[..n]
    {
      n := n + 1;
    }
    CStrOfPrefix(word, n);
    key := Lowercase(word[..n]);
  }

  /** A string without NUL is its own C string. */
  lemma {:induction false} CStrWithoutNul(s: seq<char>)
    requires '\0' !in s
    ensures CStr(s) == s
  {
    if s != [] {
      assert '\0' !in s[1..];
      CStrWithoutNul(s[1..]);
      assert s == [s[0]] + s[1..];
    }
  }

  /** Where the copy stops is where `CStr` and `Prefix` put the end. */
  lemma CStrOfPrefix(word: seq<char>, n: nat)
    requires n <= |word| && n <= MaxWordLen - 1 && '\0' !in word[..n]
    requires n == |word| || n == MaxWordLen - 1 || word[n] == '\0'
    ensures Prefix(CStr(word), MaxWordLen - 1) == word[..n]
  {
    var c := CStr(word);
    if |c| < n {
      assert false;
    }
  }

  // ----------------------------------------------------------- the table

  class Library {
    /** `dictionary`: `null` when nothing is loaded; otherwise `capacity` slots of which `count` are used. */
    var dictionary: array?<seq<char>>
    var count: int
    var capacity: int

    ghost predicate Valid()
      reads this, dictionary
    {
      && (dictionary == null ==> count == 0 && capacity == 0)
      && (dictionary != null ==>
            && dictionary.Length == capacity
            && 0 <= count <= capacity
            && capacity == Grown(DictionarySize, count)
            && forall i :: 0 <= i < count ==> StoredWord(dictionary[i]))
    }

    /** The words in the table, in order. */
    ghost function Words(): seq<seq<char>>
      reads this, dictionary
      requires Valid()
    {
      if dictionary == null then [] else dictionary[..count]
    }

    /** The state of the globals when the library is loaded: nothing allocated. */
    constructor ()
      ensures Valid() && dictionary == null && count == 0 && capacity == 0
    {
      dictionary := null;
      count := 0;
      capacity := 0;
    }

    /** `cleanup`: frees the table and zeroes the counters, whatever the state. */
    method Cleanup()
      modifies this
      ensures Valid() && dictionary == null && count == 0 && capacity == 0
    {
      if dictionary != null {
        dictionary := null;
      }
      count := 0;
      capacity := 0;
    }

    /**
     * `load_dictionary`: cleans up, then, when the file opens, stores every kept
     * line, doubling the capacity whenever the table is full.
     */
    method LoadDictionary(file: Option<seq<seq<char>>>) returns (ok: bool)
      modifies this
      ensures Valid()
      ensures ok <==> file.Some?
      ensures file.None? ==> dictionary == null && count == 0 && capacity == 0
      ensures file.Some? ==> dictionary != null && fresh(dictionary) && Words() == KeptWords(file.value)
    {
      Cleanup();
      if file.None? {
        return false;
      }
      var chunks := file.value;
      capacity := DictionarySize;
      dictionary := new seq<char>[capacity];
      count := 0;
      for k := 0 to |chunks|
        invariant dictionary != null && fresh(dictionary)
        invariant Valid()
        invariant Words() == KeptWords(chunks[..k])
      {
        KeptWordsNext(chunks, k);
        var line := CutAtLineEnd(chunks[k]);
        line := Lowercase(line);
        if |line| < MaxWordLen {
          ProcessLineStored(chunks[k]);
          Store(line);
        }
      }
      assert chunks[..|chunks|] == chunks;
      return true;
    }

    /** The body of the keep branch: grow the table when full, then copy the word into the next slot. */
    method Store(line: seq<char>)
      requires Valid() && dictionary != null && StoredWord(line)
      modifies this, dictionary
      ensures Valid() && dictionary != null
      ensures dictionary == old(dictionary) || fresh(dictionary)
      ensures Words() == old(Words()) + [line]
    {
      GrownNext(DictionarySize, count);
      if count >= capacity {
        Grow();
      }
      dictionary[count] := Prefix(line, MaxWordLen - 1);
      count := count + 1;
      assert dictionary[..count] == old(Words()) + [line];
    }

    /** The `realloc` to twice the capacity: the used entries move to a table twice as large. */
    method Grow()
      requires dictionary != null && 0 <= count == capacity == dictionary.Length
      modifies this
      ensures dictionary != null && fresh(dictionary)
      ensures capacity == 2 * old(capacity) && dictionary.Length == capacity && count == old(count)
      ensures dictionary[..count] == old(dictionary[..count])
    {
      var current := dictionary;
      var bigger := new seq<char>[2 * capacity];
      for i := 0 to count
        invariant bigger[..i] == current[..i]
        invariant dictionary == current && count == old(count) && capacity == old(capacity)
      {
        bigger[i] := current[i];
      }
      capacity := 2 * capacity;
      dictionary := bigger;
    }

    /** `is_word_correct`: a linear search for the key; no match on an empty or absent table. */
    method IsWordCorrect(word: seq<char>) returns (correct: bool)
      requires Valid()
      ensures correct <==> InDictionary(Words(), word)
      ensures dictionary == null || count == 0 ==> !correct
    {
      if dictionary == null || count == 0 {
        return false;
      }
      var key := LowerKey(word);
      for i := 0 to count
        invariant key !in dictionary[..i]
      {
        if key == dictionary[i] {
          assert dictionary[..count][i] == key;
          return true;
        }
      }
      return false;
    }

    /**
     * `get_suggestions`: every table word that passes the filters, with its
     * distance to the key, up to `MAX_TEMP_SUGGESTIONS` of them (the scan
     * stops at the first match past the cap), sorted by `sort_suggestions`.
     */
    method GetSuggestions(word: seq<char>, tolerance: int, missLen: int, lenTol: int, suggestions: array<Suggestion>)
      returns (n: int)
      requires Valid() && suggestions.Length >= MaxTempSuggestions
      modifies suggestions
      ensures var all := Matches(Words(), Key(word), tolerance, missLen, lenTol);
        && n == Min(|all|, MaxTempSuggestions)
        && Sorted(suggestions[..n])
        && multiset(suggestions[..n]) == multiset(all[..n])
        && suggestions[n..] == old(suggestions[n..])
    {
      if dictionary == null || count == 0 {
        return 0;
      }
      var key := LowerKey(word);
      n := Collect(key, tolerance, missLen, lenTol, suggestions);
      SortSuggestions(suggestions, n);
    }

    /** The scan of `get_suggestions` before the sort: the first matches, in table order, up to the cap. */
    method Collect(key: seq<char>, tolerance: int, missLen: int, lenTol: int, suggestions: array<Suggestion>)
      returns (n: int)
      requires Valid() && dictionary != null && suggestions.Length >= MaxTempSuggestions
      modifies suggestions
      ensures var all := Matches(Words(), key, tolerance, missLen, lenTol);
        && n == Min(|all|, MaxTempSuggestions)
        && suggestions[..n] == all[..n]
        && suggestions[n..] == old(suggestions[n..])
    {
      ghost var words := dictionary[..count];
      n := 0;
      var i := 0;
      while i < count
        invariant 0 <= i <= count && 0 <= n <= MaxTempSuggestions
        invariant suggestions[..n] == Matches(words[..i], key, tolerance, missLen, lenTol)
        invariant suggestions[n..] == old(suggestions[n..])
      {
        MatchesNext(words, key, tolerance, missLen, lenTol, i);
        var w := dictionary[i];
        assert w == words[i] && StoredWord(w);
        if |w| < missLen {
          i := i + 1;
          continue;
        }
        if Abs(|w| - missLen) > lenTol {
          i := i + 1;
          continue;
        }
        var dist := DamerauLevenshteinDistance(key, w);
        if dist >= 0 && dist <= tolerance {
          if n < MaxTempSuggestions {
            suggestions[n] := Suggestion(Prefix(w, MaxWordLen - 1), dist);
            n := n + 1;
          } else {
            MatchesPrefix(words, key, tolerance, missLen, lenTol, i + 1);
            break;
          }
        }
        i := i + 1;
      }
      if i == count {
        assert words[..i] == words;
      }
    }
  }
}
