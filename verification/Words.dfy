/** White space, and texts cut into words at it. Only the white space of ASCII occurs: a character stands for a byte. */
module Words {

  /** What ends a bare token of a Git header (`is_ascii_whitespace`). */
  predicate IsAsciiSpace(c: char) {
    c == ' ' || c == '\t' || c == '\n' || c == '\r' || c as int == 12
  }

  /** What `split_whitespace` and `trim` take for white space: the vertical tab too. */
  predicate IsWhite(c: char) {
    IsAsciiSpace(c) || c as int == 11
  }

  /** The control characters from the tab to the carriage return, and the space; in a header all but the vertical tab. */
  lemma WhiteIs(c: char)
    ensures IsWhite(c) <==> 9 <= c as int <= 13 || c as int == 32
    ensures IsAsciiSpace(c) <==> IsWhite(c) && c as int != 11
  {
  }

  /** The text without its leading white space. */
  function SkipWhite(s: string): (rest: string)
    ensures |rest| <= |s| && (rest != "" ==> !IsWhite(rest[0]))
  {
    if s != "" && IsWhite(s[0]) then SkipWhite(s[1..]) else s
  }

  /** Length of the leading stretch without white space. */
  function WordLength(s: string): (n: nat)
    ensures n <= |s|
    ensures s != "" && !IsWhite(s[0]) ==> n > 0
  {
    if s != "" && !IsWhite(s[0]) then 1 + WordLength(s[1..]) else 0
  }

  /** `split_whitespace`. */
  function Split(text: string): seq<string>
    decreases |text|
  {
    var s := SkipWhite(text);
    if s == "" then [] else [s[..WordLength(s)]] + Split(s[WordLength(s)..])
  }

  /** Words with one space between any two. */
  function Join(words: seq<string>): string {
    if words == [] then "" else if |words| == 1 then words[0] else words[0] + (" " + Join(words[1..]))
  }

  predicate NoWhite(word: string) {
    forall c | c in word :: !IsWhite(c)
  }

  lemma {:induction false} LengthOfWord(word: string, rest: string)
    requires NoWhite(word) && (rest == "" || IsWhite(rest[0]))
    ensures WordLength(word + rest) == |word|
  {
    if word == "" {
      assert word + rest == rest;
    } else {
      assert (word + rest)[1..] == word[1..] + rest;
      assert word[0] in word;
      LengthOfWord(word[1..], rest);
    }
  }

  lemma WordFirst(word: string, rest: string)
    requires word != "" && NoWhite(word) && (rest == "" || IsWhite(rest[0]))
    ensures Split(word + rest) == [word] + Split(rest)
  {
    var s := word + rest;
    assert word[0] in word && s[0] == word[0];
    assert SkipWhite(s) == s;
    LengthOfWord(word, rest);
    assert s[..|word|] == word && s[|word|..] == rest;
  }

  lemma LoneWord(word: string)
    requires word != "" && NoWhite(word)
    ensures Split(word) == [word]
  {
    WordFirst(word, "");
    assert word + "" == word;
  }

  lemma SpaceBefore(s: string)
    ensures Split(" " + s) == Split(s)
  {
    assert (" " + s)[1..] == s;
    assert SkipWhite(" " + s) == SkipWhite(s);
  }

  lemma NextWord(word: string, rest: string)
    requires word != "" && NoWhite(word)
    ensures Split(word + (" " + rest)) == [word] + Split(rest)
  {
    WordFirst(word, " " + rest);
    SpaceBefore(rest);
  }

  predicate AreWords(words: seq<string>) {
    words == [] || (words[0] != "" && NoWhite(words[0]) && AreWords(words[1..]))
  }

  /** Joining words and splitting the text gives the words back. */
  lemma {:induction false} JoinedWords(words: seq<string>)
    requires AreWords(words)
    ensures Split(Join(words)) == words
  {
    if |words| == 1 {
      LoneWord(words[0]);
      assert [words[0]] == words;
    } else if words != [] {
      JoinedWords(words[1..]);
      NextWord(words[0], Join(words[1..]));
      assert [words[0]] + words[1..] == words;
    }
  }
}
