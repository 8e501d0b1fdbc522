/** The server's word list: loading, and rewriting a file that holds no usable word. */
module WordList {
  import opened Bytes
  import opened Lines
  import opened RecordFiles
  import opened SkippedLines

  const MAX_WORDS: nat := 256
  const MAX_WORD_STR_LEN: nat := 32

  /** The line buffer holds MAX_WORD_STR_LEN + 2 bytes, one of them the NUL. */
  const WORD_LINE: nat := MAX_WORD_STR_LEN + 1

  /** How much of a line is before its first CR or LF. */
  function LineBreakAt(s: Bytes): (i: nat)
    ensures i <= |s|
  {
    if s == [] || s[0] == '\r' || s[0] == '\n' then 0 else 1 + LineBreakAt(s[1..])
  }

  /** The word on a line: cut at the first NUL, CR or LF; None if it is empty or too long. */
  function ParseWord(line: Bytes): Option<Bytes> {
    var s := CString(line);
    var word := s[..LineBreakAt(s)];
    if 0 < |word| < MAX_WORD_STR_LEN then Some(word) else None
  }

  predicate IsWord(w: Bytes) {
    0 < |w| < MAX_WORD_STR_LEN && '\r' !in w && '\n' !in w && '\0' !in w
  }

  /** The first 256 words of a file; an empty line, or the end of the file, ends the reading. */
  function Words(f: Bytes): seq<Bytes> {
    Records(ParseWord, f, WORD_LINE, MAX_WORDS)
  }

  // ---------- what a line holds ----------

  lemma {:induction false} LineBreakIsFirst(s: Bytes)
    ensures '\r' !in s[..LineBreakAt(s)] && '\n' !in s[..LineBreakAt(s)]
    ensures '\r' !in s && '\n' !in s ==> LineBreakAt(s) == |s|
    ensures LineBreakAt(s) < |s| ==> s[LineBreakAt(s)] in {'\r', '\n'}
  {
    if s != [] && s[0] != '\r' && s[0] != '\n' {
      LineBreakIsFirst(s[1..]);
      assert s[..LineBreakAt(s)] == [s[0]] + s[1..][..LineBreakAt(s) - 1];
    }
  }

  lemma ParsedIsWord(line: Bytes)
    ensures ParseWord(line).Some? ==> IsWord(ParseWord(line).value)
    ensures IsWord(line) ==> ParseWord(line) == Some(line)
  {
    CStringIs(line);
    LineBreakIsFirst(CString(line));
    assert line[..|line|] == line;
  }

  /** Where a word may end before its line does. */
  predicate EndsWord(b: Byte) {
    b == '\r' || b == '\n' || b == '\0'
  }

  /** A line holds the word it starts with, whatever follows the first CR, LF or NUL. */
  lemma ParseWordIff(line: Bytes, w: Bytes)
    ensures ParseWord(line) == Some(w) <==>
            IsWord(w) && w <= line && (|w| < |line| ==> EndsWord(line[|w|]))
  {
    ParsedIsWord(line);
    WordEnds(line);
    var s := CString(line);
    if IsWord(w) && w <= line && (|w| < |line| ==> EndsWord(line[|w|])) {
      LongestIs(line, w, s[..LineBreakAt(s)]);
    }
  }

  /** The cut stops at the end of the line, or at what ends a word. */
  lemma WordEnds(line: Bytes)
    ensures var w := CString(line)[..LineBreakAt(CString(line))];
            w <= line && '\r' !in w && '\n' !in w && '\0' !in w && (|w| < |line| ==> EndsWord(line[|w|]))
  {
    var s := CString(line);
    CStringIs(line);
    CStringEnds(line);
    LineBreakIsFirst(s);
  }

  lemma LongestIs(line: Bytes, v: Bytes, w: Bytes)
    requires v <= line && w <= line
    requires forall i :: 0 <= i < |v| ==> !EndsWord(v[i])
    requires forall i :: 0 <= i < |w| ==> !EndsWord(w[i])
    requires (|v| < |line| ==> EndsWord(line[|v|])) && (|w| < |line| ==> EndsWord(line[|w|]))
    ensures v == w
  {
    assert forall i :: 0 <= i < |v| ==> line[i] == v[i];
    assert forall i :: 0 <= i < |w| ==> line[i] == w[i];
  }

  /** Whatever the file holds, the list is made of words: nonempty, at most 31 bytes, free of CR and LF. */
  lemma WordsAreWords(f: Bytes, i: nat)
    requires i < |Words(f)|
    ensures IsWord(Words(f)[i])
  {
    var line := RecordSource(ParseWord, f, WORD_LINE, MAX_WORDS, i);
    ParsedIsWord(line);
  }

  /** A file with one word on each line loads as its first 256 lines, in order. */
  lemma WordsReadBack(lines: seq<Bytes>)
    requires forall i :: 0 <= i < |lines| ==> IsWord(lines[i])
    ensures Words(Joined(lines)) == Take(lines, MAX_WORDS)
  {
    forall i | 0 <= i < |lines|
      ensures 0 < |lines[i]| < WORD_LINE && '\n' !in lines[i] && ParseWord(lines[i]) == Some(lines[i])
    {
      ParsedIsWord(lines[i]);
    }
    ReadJoined(ParseWord, lines, lines, WORD_LINE, MAX_WORDS);
  }

  function WithReturns(words: seq<Bytes>): seq<Bytes> {
    seq(|words|, i requires 0 <= i < |words| => words[i] + ['\r'])
  }

  /** So does a file with CRLF line ends. */
  lemma CrlfReadsBack(words: seq<Bytes>)
    requires forall i :: 0 <= i < |words| ==> IsWord(words[i])
    ensures Words(Joined(WithReturns(words))) == Take(words, MAX_WORDS)
  {
    var lines := WithReturns(words);
    forall i | 0 <= i < |lines|
      ensures 0 < |lines[i]| < WORD_LINE && '\n' !in lines[i] && ParseWord(lines[i]) == Some(words[i])
    {
      ParseWordIff(lines[i], words[i]);
    }
    ReadJoined(ParseWord, lines, words, WORD_LINE, MAX_WORDS);
  }

  // ---------- when a file counts as holding no word ----------

  /** A file counts as holding no word, and will be overwritten, if and only if there is no word on the pieces before
      the first blank one: a line of 33 bytes or more is read in pieces of 33, and a blank line or one whose length is a
      multiple of 33 has a blank piece. */
  lemma NoWordsIff(lines: seq<Bytes>)
    requires OneLineEach(lines)
    ensures Words(Joined(lines)) == [] <==>
            forall p :: p in BeforeBlank(AllPieces(lines, WORD_LINE)) ==> ParseWord(p).None?
  {
    ReadsPieces(ParseWord, lines, WORD_LINE, MAX_WORDS);
    NothingParsed(ParseWord, BeforeBlank(AllPieces(lines, WORD_LINE)));
  }

  /** Whatever words follow, a file that starts with a blank line counts as holding none: "\nhi\n", for example. */
  lemma BlankFirstLineHidesAll(lines: seq<Bytes>)
    ensures Words(['\n'] + Joined(lines)) == []
    ensures ['\n'] + Joined(["hi"]) == "\nhi\n"
  {
    assert Joined(["hi"]) == "hi" + ['\n'] + Joined([]) == "hi\n";
  }

  lemma FullPieceHidesAll(x: Bytes, rest: Bytes)
    requires |x| == WORD_LINE && '\r' !in x && '\n' !in x && '\0' !in x
    ensures Words(x + (['\n'] + rest)) == []
  {
    CStringIs(x);
    LineBreakIsFirst(x);
    FullLineStops(ParseWord, x, rest, WORD_LINE, MAX_WORDS);
  }

  /** So does one that starts with 33 bytes free of CR, LF and NUL and a newline, with no blank line in it. */
  lemma FullFirstLineHidesAll(x: Bytes, lines: seq<Bytes>)
    requires |x| == 33 && '\r' !in x && '\n' !in x && '\0' !in x
    ensures Words(x + ['\n'] + Joined(lines)) == []
  {
    FullPieceHidesAll(x, Joined(lines));
    assert x + (['\n'] + Joined(lines)) == x + ['\n'] + Joined(lines);
  }

  // ---------- the default words ----------

  const DEFAULT_WORDS: seq<Bytes> := [
    "hello", "world", "rain", "typing", "keyboard", "program", "linux", "thread",
    "mutex", "socket", "network", "coding", "algorithm", "pointer", "system"]

  predicate Letters(w: Bytes) {
    forall i :: 0 <= i < |w| ==> 'a' <= w[i] <= 'z'
  }

  /** A list that can be written as defaults: it reads back as itself. */
  predicate Defaults(words: seq<Bytes>) {
    0 < |words| <= MAX_WORDS && forall i :: 0 <= i < |words| ==> IsWord(words[i])
  }

  lemma DefaultsAreLetters(i: nat)
    requires i < |DEFAULT_WORDS|
    ensures Letters(DEFAULT_WORDS[i]) && 0 < |DEFAULT_WORDS[i]| < MAX_WORD_STR_LEN
  {
  }

  lemma DefaultWordsQualify()
    ensures Defaults(DEFAULT_WORDS)
  {
    forall i | 0 <= i < |DEFAULT_WORDS| ensures IsWord(DEFAULT_WORDS[i]) {
      DefaultsAreLetters(i);
      LettersAreWords(DEFAULT_WORDS[i]);
    }
  }

  lemma LettersAreWords(w: Bytes)
    requires Letters(w) && 0 < |w| < MAX_WORD_STR_LEN
    ensures IsWord(w)
  {
  }

  lemma DefaultsLoad(words: seq<Bytes>)
    requires Defaults(words)
    ensures Words(Joined(words)) == words
  {
    WordsReadBack(words);
  }

  // ---------- the file and the list ----------

  /** `data/words.txt`: None when it does not exist. */
  class WordFile {
    var contents: Option<Bytes>
    var words: seq<Bytes> // g_wordlist
    ghost var writes: nat
    const defaults: seq<Bytes>

    constructor (contents: Option<Bytes>, defaults: seq<Bytes>)
      ensures this.contents == contents && this.defaults == defaults && words == [] && writes == 0
    {
      this.contents, this.defaults, words, writes := contents, defaults, [], 0;
    }

    /** `write_default_words_to_file`. */
    method WriteDefaults(io: bool) returns (ok: bool)
      modifies `contents, `writes
      ensures ok == io && writes == old(writes) + 1
      ensures ok ==> contents == Some(Joined(defaults))
    {
      writes := writes + 1;
      if !io { return false; }
      contents := Some([]);
      var i := 0;
      assert defaults[..0] == [];
      while i < |defaults|
        invariant 0 <= i <= |defaults| && contents == Some(Joined(defaults[..i])) && writes == old(writes) + 1
      {
        JoinedAppend(defaults[..i], defaults[i]);
        assert defaults[..i + 1] == defaults[..i] + [defaults[i]];
        contents := Some(contents.value + defaults[i] + ['\n']);
        i := i + 1;
      }
      assert defaults[..i] == defaults;
      return true;
    }

    /** The reading loop, into the list. */
    method ReadWords(data: Bytes)
      modifies `words
      ensures words == Words(data)
    {
      var file := new Reader(data);
      words := [];
      ghost var all := RecordsOnto(ParseWord, [], data, WORD_LINE, MAX_WORDS);
      OntoNothing(ParseWord, data, WORD_LINE, MAX_WORDS);
      while |words| < MAX_WORDS
        invariant file.Valid() && fresh(file) && |words| <= MAX_WORDS
        invariant RecordsOnto(ParseWord, words, file.Left(), WORD_LINE, MAX_WORDS) == all
        decreases |file.Left()|, MAX_WORDS - |words|
      {
        var line := file.ReadLine(WORD_LINE);
        if |line| == 0 { break; }
        match ParseWord(line) {
          case Some(word) => words := words + [word];
          case None =>
        }
      }
    }

    /** `load_wordlist_from_file` with its jump back to the start. `readable` says whether an existing file can be
        opened, `writable` whether writing the defaults succeeds; nobody else changes the file. */
    method Load(readable: bool, writable: bool) returns (count: int)
      requires Defaults(defaults)
      modifies this
      ensures count > 0 <==> readable && (writable || (old(contents).Some? && Words(old(contents).value) != []))
      ensures count > 0 ==>
                && contents.Some? && words == Words(contents.value) && count == |words| <= MAX_WORDS
                && contents == (if old(contents).Some? && Words(old(contents).value) != []
                                then old(contents) else Some(Joined(defaults)))
      ensures count <= 0 ==> count == -1
      ensures writes <= old(writes) + 1
    {
      ghost var reloads := 0;
      while true
        invariant reloads <= 1 && writes == old(writes) + reloads
        invariant reloads == 0 ==> contents == old(contents)
        invariant reloads == 1 ==> contents == Some(Joined(defaults)) && writable && readable
        invariant reloads == 1 ==> old(contents).Some? && Words(old(contents).value) == []
        decreases 1 - reloads
      {
        DefaultsLoad(defaults);
        if contents == Some([]) {
          var ok := WriteDefaults(writable);
          if !ok { return -1; }
        }
        if contents.None? {
          var ok := WriteDefaults(writable);
          if !ok { return -1; }
        }
        if !readable { return -1; }
        ReadWords(contents.value);
        if |words| > 0 { return |words|; }
        var ok := WriteDefaults(writable);
        if !ok { return -1; }
        reloads := reloads + 1;
      }
    }
  }
}
