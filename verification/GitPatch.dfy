/** Patches in Git's own form. Git quotes a path only for control characters, quotes, backslashes and bytes above ASCII;
    spaces stay bare, and a name line whose path holds one ends in a tab. The parser keeps that tab, splits the
    `diff --git` line at spaces, and knows only some of Git's escapes: this module says exactly what it reads. */
module GitPatch {
  import opened Wrappers
  import opened Document
  import opened GitQuoting
  import opened HunkHeaders
  import opened PatchParser
  import opened PatchRoundTrip
  import opened Words

  /* ---- Git's quoting ---- */

  predicate MustQuote(c: char) {
    c as int < 32 || c as int >= 127 || c == '"' || c == '\\'
  }

  predicate Quotes(path: string) {
    path != "" && (MustQuote(path[0]) || Quotes(path[1..]))
  }

  lemma {:induction false} BareAt(path: string, k: nat)
    requires !Quotes(path) && k < |path|
    ensures !MustQuote(path[k]) && (IsWhite(path[k]) ==> path[k] == ' ')
    decreases k
  {
    if k > 0 {
      BareAt(path[1..], k - 1);
    }
  }

  lemma {:induction false} BareTail(path: string, n: nat)
    requires !Quotes(path) && n <= |path|
    ensures !Quotes(path[n..])
    decreases n
  {
    if n > 0 {
      BareTail(path[1..], n - 1);
      assert path[1..][n - 1..] == path[n..];
    }
  }

  lemma BareInner(path: string)
    requires !Quotes(path)
    ensures '\n' !in path
  {
    forall k | 0 <= k < |path| ensures path[k] != '\n' {
      BareAt(path, k);
    }
  }

  /** Bell, backspace, vertical tab and form feed: Git escapes them by a letter that the tokenizer takes for itself. */
  predicate IsLettered(c: char) {
    c as int == 7 || c as int == 8 || c as int == 11 || c as int == 12
  }

  function Letter(c: char): char {
    if c as int == 7 then 'a' else if c as int == 8 then 'b' else if c as int == 11 then 'v' else 'f'
  }

  function EscapeText(c: char): string
    requires c as int < 256
  {
    if IsLettered(c) then ['\\', Letter(c)] else PieceOf(c).Text()
  }

  function EscapedPath(path: string): string
    requires IsBytes(path)
  {
    if path == "" then ""
    else
      assert path[0] in path && forall c | c in path[1..] :: c in path;
      EscapeText(path[0]) + EscapedPath(path[1..])
  }

  /** What the tokenizer makes of a quoted path. */
  function Misread(path: string): string {
    if path == "" then "" else [if IsLettered(path[0]) then Letter(path[0]) else path[0]] + Misread(path[1..])
  }

  predicate NoneLettered(path: string) {
    forall c | c in path :: !IsLettered(c)
  }

  function GitText(path: string): string
    requires IsBytes(path)
  {
    if Quotes(path) then "\"" + EscapedPath(path) + "\"" else path
  }

  lemma EscapeStep(c: char, rest: string)
    requires c as int < 256
    ensures var s := EscapeText(c) + rest;
            s[0] != '"' && Unescape(s) == Ok((if IsLettered(c) then Letter(c) else c, rest))
  {
    var s := EscapeText(c) + rest;
    if IsLettered(c) {
      assert s[2..] == rest;
    } else {
      PieceStep(PieceOf(c), rest);
    }
  }

  lemma {:induction false} EscapedReads(path: string, rest: string)
    requires IsBytes(path)
    ensures Unquote(EscapedPath(path) + "\"" + rest) == Ok((Misread(path), rest))
  {
    var s := EscapedPath(path) + "\"" + rest;
    if path == "" {
      assert s == "\"" + rest && s[1..] == rest;
    } else {
      assert path[0] in path && forall c | c in path[1..] :: c in path;
      var tail := EscapedPath(path[1..]) + "\"" + rest;
      assert s == EscapeText(path[0]) + tail;
      EscapeStep(path[0], tail);
      EscapedReads(path[1..], rest);
    }
  }

  lemma QuoteBody(escaped: string, rest: string)
    ensures var s := "\"" + escaped + "\"" + rest; s[0] == '"' && s[1..] == escaped + "\"" + rest
  {
  }

  lemma QuotedReads(path: string, rest: string)
    requires IsBytes(path) && Quotes(path)
    ensures Tokens(GitText(path) + rest) == Extended([Misread(path)], Tokens(rest))
  {
    QuoteBody(EscapedPath(path), rest);
    EscapedReads(path, rest);
    QuotedTokens(GitText(path) + rest);
  }

  lemma {:induction false} MisreadWhen(path: string)
    ensures |Misread(path)| == |path| && (Misread(path) == path <==> NoneLettered(path))
  {
    if path != "" {
      MisreadWhen(path[1..]);
      assert path == [path[0]] + path[1..];
      assert Misread(path)[0] == path[0] <==> !IsLettered(path[0]);
      assert Misread(path)[1..] == Misread(path[1..]);
    }
  }

  lemma EscapeInner(c: char)
    requires c as int < 256
    ensures '\n' !in EscapeText(c)
  {
  }

  lemma {:induction false} EscapedInner(path: string)
    requires IsBytes(path)
    ensures '\n' !in EscapedPath(path)
  {
    if path != "" {
      assert path[0] in path && forall c | c in path[1..] :: c in path;
      EscapeInner(path[0]);
      EscapedInner(path[1..]);
    }
  }

  lemma TextInner(path: string)
    requires IsBytes(path)
    ensures '\n' !in GitText(path)
  {
    if Quotes(path) {
      EscapedInner(path);
    } else {
      BareInner(path);
    }
  }

  /* ---- Single paths: rename lines and name lines ---- */

  /** What a path alone on the rest of its line is read as. */
  function ReadAlone(path: string): string {
    if Quotes(path) then Misread(path) else path
  }

  lemma BlankTail(tail: string)
    requires tail == "" || tail == "\t"
    ensures Tokens(tail) == Ok([])
  {
    if tail == "\t" {
      assert tail[1..] == "" && SkipSpace(tail) == "";
    }
  }

  lemma TextParses(path: string, tail: string)
    requires IsBytes(path) && (tail == "" || tail == "\t")
    ensures ParseGitPath(GitText(path) + tail) == Ok(if Quotes(path) then Misread(path) else path + tail)
  {
    if Quotes(path) {
      QuotedReads(path, tail);
      BlankTail(tail);
      assert [Misread(path)] + [] == [Misread(path)];
    } else if path != "" {
      BareAt(path, 0);
    }
  }

  function Tab(path: string): string {
    if ' ' in path then "\t" else ""
  }

  /** A path on a name line. */
  function NameText(prefix: string, path: string): string
    requires IsBytes(prefix + path)
  {
    GitText(prefix + path) + Tab(path)
  }

  /** What a name line is read as: the tab after a bare path with a space stays. */
  function ReadName(path: string): string {
    if Quotes(path) then Misread(path) else path + Tab(path)
  }

  predicate IsPrefix(prefix: string) {
    prefix == "a/" || prefix == "b/"
  }

  lemma PrefixedPath(prefix: string, path: string)
    requires IsPrefix(prefix)
    ensures IsBytes(path) ==> IsBytes(prefix + path)
    ensures Quotes(prefix + path) <==> Quotes(path)
    ensures Misread(prefix + path) == prefix + Misread(path)
  {
    assert forall c | c in prefix + path :: c in prefix || c in path;
    OneBefore(prefix[1], path);
    OneBefore(prefix[0], prefix[1..] + path);
    assert prefix + path == [prefix[0]] + (prefix[1..] + path) && prefix[1..] + path == [prefix[1]] + path;
    assert [prefix[0]] + ([prefix[1]] + Misread(path)) == prefix + Misread(path);
  }

  lemma OneBefore(c: char, path: string)
    requires !MustQuote(c)
    ensures (Quotes([c] + path) <==> Quotes(path)) && Misread([c] + path) == [c] + Misread(path)
  {
    assert ([c] + path)[1..] == path;
  }

  lemma BareNameReadAs(prefix: string, path: string, tail: string)
    requires IsPrefix(prefix) && !Quotes(prefix + path) && IsBytes(prefix + path) && (tail == "" || tail == "\t")
    ensures StripGitPatchPrefix(GitText(prefix + path) + tail) == Ok(path + tail)
  {
    TextParses(prefix + path, tail);
    WordAndRest(prefix + path, prefix, path, tail);
    PrefixStripped(path + tail, prefix);
  }

  lemma QuotedNameReadAs(prefix: string, path: string, tail: string)
    requires IsPrefix(prefix) && Quotes(prefix + path) && IsBytes(prefix + path) && (tail == "" || tail == "\t")
    ensures StripGitPatchPrefix(GitText(prefix + path) + tail) == Ok(Misread(path))
  {
    TextParses(prefix + path, tail);
    PrefixedPath(prefix, path);
    PrefixStripped(Misread(path), prefix);
  }

  lemma NameReadAs(prefix: string, path: string)
    requires IsPrefix(prefix) && IsBytes(prefix + path)
    ensures StripGitPatchPrefix(NameText(prefix, path)) == Ok(ReadName(path))
  {
    PrefixedPath(prefix, path);
    if Quotes(path) {
      QuotedNameReadAs(prefix, path, Tab(path));
    } else {
      BareNameReadAs(prefix, path, Tab(path));
    }
  }

  lemma NameParses(prefix: string, path: string)
    requires IsBytes(path) && IsPrefix(prefix) && IsBytes(prefix + path)
    ensures StripGitPatchPrefix(NameText(prefix, path)) == Ok(ReadName(path))
    ensures NameText(prefix, path) != "/dev/null" && '\n' !in NameText(prefix, path)
  {
    NameReadAs(prefix, path);
    PrefixedPath(prefix, path);
    TextInner(prefix + path);
    assert NameText(prefix, path)[0] == if Quotes(path) then '"' else prefix[0];
  }

  /** When a name line is read back. */
  predicate NameReads(path: string) {
    if Quotes(path) then NoneLettered(path) else ' ' !in path
  }

  lemma NameReadsWhen(path: string)
    ensures ReadName(path) == path <==> NameReads(path)
  {
    MisreadWhen(path);
    assert |path + "\t"| != |path|;
    assert path + "" == path;
  }

  predicate AloneReads(path: string) {
    Quotes(path) ==> NoneLettered(path)
  }

  lemma AloneReadsWhen(path: string)
    ensures ReadAlone(path) == path <==> AloneReads(path)
  {
    MisreadWhen(path);
  }

  /** Every bare path with a space gets a tab at its end, as in `+++ b/x y` with a tab, read as "x y" with a tab. */
  lemma SpacedNameKeepsTab(b: BuilderState, path: string)
    requires IsBytes(path) && !Quotes(path) && ' ' in path && IsBytes("b/" + path)
    ensures StepLine(b, "+++ " + NameText("b/", path)) == Ok(b.(path := path + "\t"))
  {
    NameParses("b/", path);
    NewNameStep(b, NameText("b/", path));
  }

  lemma TabStays(b: BuilderState)
    ensures StepLine(b, "+++ b/x y\t") == Ok(b.(path := "x y\t"))
  {
    assert "+++ b/x y\t" == "+++ " + "b/x y\t" && "b/x y\t" == "b/" + "x y\t";
    PrefixStripped("x y\t", "b/");
    NewNameStep(b, "b/x y\t");
    assert "b/x y\t"[0] == 'b' && "/dev/null"[0] == '/';
  }

  /* ---- The two paths of a `diff --git` line ---- */

  function GitNames(oldPath: string, path: string): string
    requires IsBytes("a/" + oldPath) && IsBytes("b/" + path)
  {
    GitText("a/" + oldPath) + (" " + GitText("b/" + path))
  }

  /** The tokens of a path: one if it is quoted, else its words. */
  function WordsOf(path: string): seq<string> {
    if Quotes(path) then [Misread(path)] else Split(path)
  }

  lemma {:induction false} BareTokens(path: string, rest: string)
    requires !Quotes(path) && (rest == "" || rest[0] == ' ')
    ensures Tokens(path + rest) == Extended(Split(path), Tokens(rest))
    decreases |path|
  {
    if path == "" {
      assert path + rest == rest;
      ExtendedMore([], "", Tokens(rest));
    } else if path[0] == ' ' {
      BareTokens(path[1..], rest);
      BareSpace(path, path[1..], rest);
    } else {
      var n := WordLength(path);
      WordSplits(path, n);
      BareAt(path, 0);
      BareTokens(path[n..], rest);
      BareWord(path, path[..n], path[n..], rest);
    }
  }

  lemma BareSpace(path: string, tail: string, rest: string)
    requires path == " " + tail && Tokens(tail + rest) == Extended(Split(tail), Tokens(rest))
    ensures Tokens(path + rest) == Extended(Split(path), Tokens(rest))
  {
    WordAndRest(path, " ", tail, rest);
    LeadingSpace(tail + rest);
    SpaceBefore(tail);
  }

  lemma BareWord(path: string, word: string, tail: string, rest: string)
    requires path == word + tail && word != "" && word[0] != '"' && NoWhite(word)
    requires (tail == "" || tail[0] == ' ') && (rest == "" || rest[0] == ' ')
    requires Split(path) == [word] + Split(tail) && Tokens(tail + rest) == Extended(Split(tail), Tokens(rest))
    ensures Tokens(path + rest) == Extended(Split(path), Tokens(rest))
  {
    WordAndRest(path, word, tail, rest);
    WordThenTokens(word, tail + rest);
    ExtendedTwice(word, Split(tail), Tokens(rest));
  }

  lemma ExtendedTwice(word: string, words: seq<string>, rest: Result<seq<string>, QuoteError>)
    ensures Extended([word], Extended(words, rest)) == Extended([word] + words, rest)
  {
    if rest.Ok? {
      assert [word] + (words + rest.value) == [word] + words + rest.value;
    }
  }

  lemma {:induction false} WordHasNoWhite(path: string)
    ensures NoWhite(path[..WordLength(path)])
    ensures WordLength(path) < |path| ==> IsWhite(path[WordLength(path)])
  {
    if path != "" && !IsWhite(path[0]) {
      WordHasNoWhite(path[1..]);
      assert path[..WordLength(path)] == [path[0]] + path[1..][..WordLength(path[1..])];
    }
  }

  /** The first word of a bare path. */
  lemma WordSplits(path: string, n: nat)
    requires !Quotes(path) && path != "" && path[0] != ' ' && n == WordLength(path)
    ensures n > 0 && !Quotes(path[n..]) && Split(path) == [path[..n]] + Split(path[n..])
    ensures NoWhite(path[..n]) && (n < |path| ==> path[n] == ' ')
  {
    BareAt(path, 0);
    assert SkipWhite(path) == path;
    WordHasNoWhite(path);
    BareTail(path, n);
    if n < |path| {
      BareAt(path, n);
    }
  }

  lemma WordAndRest(path: string, word: string, tail: string, rest: string)
    requires path == word + tail
    ensures path + rest == word + (tail + rest)
  {
  }

  lemma WordThenTokens(word: string, more: string)
    requires word != "" && word[0] != '"' && NoWhite(word) && (more == "" || more[0] == ' ')
    ensures Tokens(word + more) == Extended([word], Tokens(more))
  {
    assert forall c | c in word :: !IsAsciiSpace(c);
    BareStep(word, more);
  }

  lemma TextTokens(path: string, rest: string)
    requires IsBytes(path) && (rest == "" || rest[0] == ' ')
    ensures Tokens(GitText(path) + rest) == Extended(WordsOf(path), Tokens(rest))
  {
    if Quotes(path) {
      QuotedReads(path, rest);
    } else {
      BareTokens(path, rest);
    }
  }

  lemma NamesTokens(oldPath: string, path: string)
    requires IsBytes("a/" + oldPath) && IsBytes("b/" + path)
    ensures Tokens(GitNames(oldPath, path)) == Ok(WordsOf("a/" + oldPath) + WordsOf("b/" + path))
  {
    var second := GitText("b/" + path);
    TextTokens("a/" + oldPath, " " + second);
    LeadingSpace(second);
    TextTokens("b/" + path, "");
    assert second + "" == second && Tokens("") == Ok([]);
    assert WordsOf("b/" + path) + [] == WordsOf("b/" + path);
  }

  /* What the words are. */

  lemma {:induction false} SplitsToWords(text: string)
    ensures AreWords(Split(text))
    decreases |text|
  {
    var s := SkipWhite(text);
    if s != "" {
      WordHasNoWhite(s);
      SplitsToWords(s[WordLength(s)..]);
    }
  }

  /** The first word keeps the prefix. */
  lemma FirstWord(prefix: string, path: string)
    requires IsPrefix(prefix)
    ensures var words := WordsOf(prefix + path); words != [] && prefix <= words[0]
  {
    var s := prefix + path;
    PrefixedPath(prefix, path);
    assert s[0] == prefix[0] && s[1] == prefix[1] && SkipWhite(s) == s;
    assert WordLength(s) == 1 + WordLength(s[1..]) && WordLength(s[1..]) >= 1;
    assert s[..WordLength(s)][..2] == prefix;
  }

  /** A word after the first looks like the start of the new path. */
  predicate Hides(words: seq<string>) {
    exists k :: 1 <= k < |words| && "b/" <= words[k]
  }

  lemma {:induction false} FoundAt(tokens: seq<string>, k: nat, m: nat)
    requires k <= m < |tokens| && "b/" <= tokens[m] && forall i | k <= i < m :: !("b/" <= tokens[i])
    ensures FindNewPath(tokens, k) == Some(m)
    decreases m - k
  {
    if k < m {
      FoundAt(tokens, k + 1, m);
    }
  }

  lemma {:induction false} FoundEarly(tokens: seq<string>, k: nat, m: nat)
    requires k <= m < |tokens| && "b/" <= tokens[m]
    ensures FindNewPath(tokens, k).Some? && FindNewPath(tokens, k).value <= m
    decreases m - k
  {
    if !("b/" <= tokens[k]) {
      FoundEarly(tokens, k + 1, m);
    }
  }

  /** Where the new path is taken to start. */
  lemma NewPathFound(a: seq<string>, b: seq<string>)
    requires a != [] && b != [] && "b/" <= b[0]
    ensures var split := FindNewPath(a + b, 1);
            split.Some? && 1 <= split.value <= |a| && (Hides(a) <==> split.value < |a|)
  {
    var tokens := a + b;
    assert tokens[|a|] == b[0];
    if Hides(a) {
      var k :| 1 <= k < |a| && "b/" <= a[k];
      assert tokens[k] == a[k];
      FoundEarly(tokens, 1, k);
    } else {
      forall i | 1 <= i < |a| ensures !("b/" <= tokens[i]) {
        assert tokens[i] == a[i];
      }
      FoundAt(tokens, 1, |a|);
    }
  }

  /** The two paths read from the tokens of a `diff --git` line. */
  function PathsRead(a: seq<string>, b: seq<string>): (string, string)
    requires a != [] && b != [] && "b/" <= b[0]
  {
    NewPathFound(a, b);
    var tokens, split := a + b, FindNewPath(a + b, 1).value;
    (StripPatchPrefix(Join(tokens[..split])), StripPatchPrefix(Join(tokens[split..])))
  }

  lemma NamesParse(oldPath: string, path: string)
    requires IsBytes("a/" + oldPath) && IsBytes("b/" + path)
    requires var b := WordsOf("b/" + path); b != [] && "b/" <= b[0]
    requires WordsOf("a/" + oldPath) != []
    ensures ParseDiffGitPaths(GitNames(oldPath, path)) == Ok(PathsRead(WordsOf("a/" + oldPath), WordsOf("b/" + path)))
  {
    var a, b := WordsOf("a/" + oldPath), WordsOf("b/" + path);
    var tokens := a + b;
    NamesTokens(oldPath, path);
    NewPathFound(a, b);
    if |tokens| == 2 {
      assert tokens[..1] == [tokens[0]] && tokens[1..] == [tokens[1]];
      FoundAt(tokens, 1, 1);
    }
  }

  /** Each space stands before something else. */
  predicate SingleSpaced(text: string) {
    text == "" || ((text[0] == ' ' ==> |text| > 1 && text[1] != ' ') && SingleSpaced(text[1..]))
  }

  lemma {:induction false} WordThenMore(word: string, rest: string)
    requires ' ' !in word
    ensures SingleSpaced(word + rest) <==> SingleSpaced(rest)
  {
    if word == "" {
      assert word + rest == rest;
    } else {
      assert (word + rest)[1..] == word[1..] + rest;
      assert word[0] in word && forall c | c in word[1..] :: c in word;
      WordThenMore(word[1..], rest);
    }
  }

  lemma {:induction false} JoinStarts(words: seq<string>)
    requires AreWords(words) && words != []
    ensures Join(words) != "" && Join(words)[0] == words[0][0]
  {
    assert words[0] != "" && words[0][0] in words[0];
  }

  /** Splitting a bare path at white space and joining it by single spaces gives it back when it was single-spaced. */
  lemma {:induction false} JoinedWhen(text: string)
    requires !Quotes(text) && text != "" && text[0] != ' '
    ensures Join(Split(text)) == text <==> SingleSpaced(text)
    decreases |text|, 1
  {
    var n := WordLength(text);
    WordSplits(text, n);
    var word, tail := text[..n], text[n..];
    assert text == word + tail && ' ' !in word;
    WordThenMore(word, tail);
    if tail == "" {
      assert Split(tail) == [] && Split(text) == [word];
    } else {
      assert tail == " " + tail[1..];
      TailJoined(text, word, tail[1..]);
    }
  }

  lemma TailJoined(text: string, word: string, rest: string)
    requires !Quotes(text) && text == word + (" " + rest) && Split(text) == [word] + Split(" " + rest)
    requires SingleSpaced(text) <==> SingleSpaced(" " + rest)
    ensures Join(Split(text)) == text <==> SingleSpaced(text)
    decreases |text|, 0
  {
    SpaceBefore(rest);
    SplitsToWords(rest);
    assert (" " + rest)[1..] == rest;
    if Split(rest) != [] {
      JoinStarts(Split(rest));
      assert Split(text)[1..] == Split(rest);
      assert Join(Split(text)) == word + (" " + Join(Split(rest)));
      SplitStarts(rest);
    } else {
      assert Split(text) == [word];
    }
    if rest != "" && rest[0] != ' ' {
      BareTail(text, |word| + 1);
      assert text[|word| + 1..] == rest;
      JoinedWhen(rest);
      SameTail(word, " " + Join(Split(rest)), " " + rest);
      SameTail(" ", Join(Split(rest)), rest);
    } else if Split(rest) != [] {
      SameTail(word, " " + Join(Split(rest)), " " + rest);
      SameTail(" ", Join(Split(rest)), rest);
    }
  }

  lemma SameTail(head: string, a: string, b: string)
    ensures head + a == head + b <==> a == b
  {
    if head + a == head + b {
      assert (head + a)[|head|..] == a && (head + b)[|head|..] == b;
    }
  }

  /** Words begin with no white space. */
  lemma SplitStarts(text: string)
    requires Split(text) != []
    ensures Split(text)[0] != "" && !IsWhite(Split(text)[0][0])
  {
    SplitsToWords(text);
    assert Split(text)[0][0] in Split(text)[0];
  }

  /* When the two paths are read back. */

  /** A path that the `diff --git` line gives back as the old one: quoted without lettered escapes; or bare, single-spaced
      and without a later word that begins like a new path. */
  predicate OldReads(path: string) {
    if Quotes(path) then NoneLettered(path) else SingleSpaced("a/" + path) && !Hides(Split("a/" + path))
  }

  /** And as the new one, after an old path that hides no other. */
  predicate NewReads(oldPath: string, path: string) {
    && (Quotes(oldPath) || !Hides(Split("a/" + oldPath)))
    && (if Quotes(path) then NoneLettered(path) else SingleSpaced("b/" + path))
  }

  lemma JoinKeepsPrefix(words: seq<string>, prefix: string)
    requires words != [] && prefix <= words[0]
    ensures prefix <= Join(words)
  {
  }

  lemma StrippedIs(text: string, prefix: string, path: string)
    requires IsPrefix(prefix) && prefix <= text
    ensures StripPatchPrefix(text) == path <==> text == prefix + path
  {
    assert text == prefix + text[2..];
    PrefixStripped(text[2..], prefix);
    PrefixStripped(path, prefix);
  }

  /** One path's own tokens give it back. */
  lemma OwnWords(prefix: string, path: string)
    requires IsPrefix(prefix)
    ensures Join(WordsOf(prefix + path)) == prefix + path <==>
            if Quotes(path) then NoneLettered(path) else SingleSpaced(prefix + path)
  {
    PrefixedPath(prefix, path);
    MisreadWhen(path);
    if Quotes(path) {
      SameTail(prefix, Misread(path), path);
    } else {
      assert (prefix + path)[0] == prefix[0];
      JoinedWhen(prefix + path);
    }
  }

  /** Other words than its own never join to a bare path. */
  lemma OtherWords(path: string, words: seq<string>)
    requires !Quotes(path) && AreWords(words) && |words| != |Split(path)|
    ensures Join(words) != path
  {
    JoinedWords(words);
  }

  lemma {:induction false} PartsAreWords(words: seq<string>, m: nat)
    requires AreWords(words) && m <= |words|
    ensures AreWords(words[..m]) && AreWords(words[m..])
  {
    if m > 0 {
      PartsAreWords(words[1..], m - 1);
      assert words[..m][1..] == words[1..][..m - 1] && words[m..] == words[1..][m - 1..];
    }
  }

  lemma {:induction false} BothAreWords(a: seq<string>, b: seq<string>)
    requires AreWords(a) && AreWords(b)
    ensures AreWords(a + b)
  {
    if a == [] {
      assert a + b == b;
    } else {
      BothAreWords(a[1..], b);
      assert (a + b)[1..] == a[1..] + b;
    }
  }

  lemma {:induction false} JoinLonger(words: seq<string>, last: string)
    ensures words != [] ==> |Join(words + [last])| > |last|
    ensures words == [] ==> Join(words + [last]) == last
  {
    if words != [] {
      JoinLonger(words[1..], last);
      assert (words + [last])[1..] == words[1..] + [last];
    } else {
      assert words + [last] == [last];
    }
  }

  /** The old path is read in full: the words of both paths are told apart. */
  lemma ApartReads(oldPath: string, path: string, a: seq<string>, b: seq<string>)
    requires a == WordsOf("a/" + oldPath) && b == WordsOf("b/" + path)
    requires a != [] && "a/" <= a[0] && b != [] && "b/" <= b[0] && !Hides(a)
    ensures PathsRead(a, b).0 == oldPath <==>
            if Quotes(oldPath) then NoneLettered(oldPath) else SingleSpaced("a/" + oldPath)
    ensures PathsRead(a, b).1 == path <==> if Quotes(path) then NoneLettered(path) else SingleSpaced("b/" + path)
  {
    NewPathFound(a, b);
    assert (a + b)[..|a|] == a && (a + b)[|a|..] == b;
    JoinKeepsPrefix(a, "a/");
    JoinKeepsPrefix(b, "b/");
    StrippedIs(Join(a), "a/", oldPath);
    StrippedIs(Join(b), "b/", path);
    OwnWords("a/", oldPath);
    OwnWords("b/", path);
  }

  /** The old path is cut at a word that begins like a new path: neither path is read back. */
  lemma CutReads(oldPath: string, path: string, a: seq<string>, b: seq<string>)
    requires a == WordsOf("a/" + oldPath) && b == WordsOf("b/" + path)
    requires a != [] && "a/" <= a[0] && b != [] && "b/" <= b[0] && Hides(a)
    ensures PathsRead(a, b).0 != oldPath && PathsRead(a, b).1 != path
  {
    NewPathFound(a, b);
    var m := FindNewPath(a + b, 1).value;
    PrefixedPath("a/", oldPath);
    PrefixedPath("b/", path);
    assert (a + b)[..m] == a[..m] && (a + b)[m..] == a[m..] + b && (a + b)[m] == a[m];
    CutOld(oldPath, a, m);
    SplitsToWords("a/" + oldPath);
    CutNew(path, a, b, m);
    FoundPrefix(a + b, 1);
    assert (a[m..] + b)[0] == a[m];
    JoinKeepsPrefix(a[..m], "a/");
    JoinKeepsPrefix(a[m..] + b, "b/");
    StrippedIs(Join(a[..m]), "a/", oldPath);
    StrippedIs(Join(a[m..] + b), "b/", path);
  }

  lemma {:induction false} FoundPrefix(tokens: seq<string>, k: nat)
    ensures FindNewPath(tokens, k).Some? ==> "b/" <= tokens[FindNewPath(tokens, k).value]
    decreases |tokens| - k
  {
    if k < |tokens| && !("b/" <= tokens[k]) {
      FoundPrefix(tokens, k + 1);
    }
  }

  lemma CutOld(oldPath: string, a: seq<string>, m: nat)
    requires !Quotes("a/" + oldPath) && a == Split("a/" + oldPath) && m < |a|
    ensures Join(a[..m]) != "a/" + oldPath
  {
    SplitsToWords("a/" + oldPath);
    PartsAreWords(a, m);
    OtherWords("a/" + oldPath, a[..m]);
  }

  lemma CutNew(path: string, a: seq<string>, b: seq<string>, m: nat)
    requires AreWords(a) && b == WordsOf("b/" + path) && b != [] && m < |a|
    ensures Join(a[m..] + b) != "b/" + path
  {
    if Quotes("b/" + path) {
      MisreadWhen("b/" + path);
      JoinLonger(a[m..], Misread("b/" + path));
    } else {
      SplitsToWords("b/" + path);
      PartsAreWords(a, m);
      BothAreWords(a[m..], b);
      OtherWords("b/" + path, a[m..] + b);
    }
  }

  /** What the `diff --git` line of two paths is read as. */
  function NamesRead(oldPath: string, path: string): (string, string)
    requires IsBytes("a/" + oldPath) && IsBytes("b/" + path)
  {
    FirstWord("a/", oldPath);
    FirstWord("b/", path);
    PathsRead(WordsOf("a/" + oldPath), WordsOf("b/" + path))
  }

  /** The `diff --git` line can always be read; it gives the old path and the new one back exactly under these
      conditions. */
  lemma NamesReadWhen(oldPath: string, path: string)
    requires IsBytes("a/" + oldPath) && IsBytes("b/" + path)
    ensures ParseDiffGitPaths(GitNames(oldPath, path)) == Ok(NamesRead(oldPath, path))
    ensures NamesRead(oldPath, path).0 == oldPath <==> OldReads(oldPath)
    ensures NamesRead(oldPath, path).1 == path <==> NewReads(oldPath, path)
  {
    var a, b := WordsOf("a/" + oldPath), WordsOf("b/" + path);
    FirstWord("a/", oldPath);
    FirstWord("b/", path);
    NamesParse(oldPath, path);
    PrefixedPath("a/", oldPath);
    if Hides(a) {
      CutReads(oldPath, path, a, b);
    } else {
      ApartReads(oldPath, path, a, b);
    }
  }

  /* ---- Whole files ---- */

  predicate Fits(d: PatchDocument) {
    DocumentFits(d) && IsBytes("a/" + d.file.oldPath.value) && IsBytes("b/" + d.file.path)
  }

  /** The header lines before the hunks: two rename lines for a rename, and two name lines if there are hunks. */
  function RenameHeaders(d: PatchDocument): seq<string>
    requires DocumentFits(d)
  {
    if d.file.status.Renamed?
    then ["rename from " + GitText(d.file.oldPath.value), "rename to " + GitText(d.file.path)]
    else []
  }

  function OldHeader(d: PatchDocument): string
    requires Fits(d)
  {
    if d.file.status.Added? then "/dev/null" else NameText("a/", d.file.oldPath.value)
  }

  function NewHeader(d: PatchDocument): string
    requires Fits(d)
  {
    if d.file.status.Deleted? then "/dev/null" else NameText("b/", d.file.path)
  }

  function NameHeaders(d: PatchDocument): seq<string>
    requires Fits(d)
  {
    if d.diff.hunks == [] then [] else ["--- " + OldHeader(d), "+++ " + NewHeader(d)]
  }

  /** The file as read from its names and its rename lines. */
  function RenameRead(d: PatchDocument): ReviewFile
    requires Fits(d)
  {
    var names := NamesRead(d.file.oldPath.value, d.file.path);
    if d.file.status.Renamed?
    then ReviewFile(ReadAlone(d.file.path), Some(ReadAlone(d.file.oldPath.value)), Renamed)
    else ReviewFile(names.1, Some(names.0), Modified)
  }

  /** The file as read from all its headers. Without hunks there are no name lines, and nothing tells that a file was added
      or deleted. */
  function FileRead(d: PatchDocument): ReviewFile
    requires Fits(d)
  {
    var before := RenameRead(d);
    if d.diff.hunks == [] then before
    else ReviewFile(if d.file.status.Deleted? then before.path else ReadName(d.file.path),
                    if d.file.status.Added? then before.oldPath else Some(ReadName(d.file.oldPath.value)),
                    d.file.status)
  }

  function GitFile(d: PatchDocument): FileText
    requires Fits(d)
  {
    FileText(GitNames(d.file.oldPath.value, d.file.path), RenameHeaders(d) + NameHeaders(d), FileRead(d), d.diff.hunks)
  }

  /** A document whose file Git's own headers give back. */
  predicate Readable(d: PatchDocument)
    requires d.file.oldPath.Some?
  {
    var oldPath, path := d.file.oldPath.value, d.file.path;
    if d.diff.hunks == [] then
      match d.file.status
      case Renamed => AloneReads(oldPath) && AloneReads(path)
      case Modified => OldReads(oldPath) && NewReads(oldPath, path)
      case _ => false
    else
      && (if d.file.status.Added? then OldReads(oldPath) else NameReads(oldPath))
      && (if d.file.status.Deleted? then NewReads(oldPath, path) else NameReads(path))
  }

  lemma PathsReadWhen(d: PatchDocument)
    requires Fits(d)
    ensures var oldPath, path := d.file.oldPath.value, d.file.path;
            && (NamesRead(oldPath, path).0 == oldPath <==> OldReads(oldPath))
            && (NamesRead(oldPath, path).1 == path <==> NewReads(oldPath, path))
            && (ReadName(oldPath) == oldPath <==> NameReads(oldPath)) && (ReadName(path) == path <==> NameReads(path))
            && (ReadAlone(oldPath) == oldPath <==> AloneReads(oldPath)) && (ReadAlone(path) == path <==> AloneReads(path))
  {
    NamesReadWhen(d.file.oldPath.value, d.file.path);
    NameReadsWhen(d.file.oldPath.value);
    NameReadsWhen(d.file.path);
    AloneReadsWhen(d.file.oldPath.value);
    AloneReadsWhen(d.file.path);
  }

  lemma SameFile(file: ReviewFile, path: string, oldPath: string, status: Status)
    requires file.oldPath.Some?
    ensures ReviewFile(path, Some(oldPath), status) == file <==>
            path == file.path && oldPath == file.oldPath.value && status == file.status
  {
  }

  lemma WithoutHunks(d: PatchDocument)
    requires Fits(d) && d.diff.hunks == []
    ensures FileRead(d) == d.file <==> Readable(d)
  {
    PathsReadWhen(d);
    SameFile(d.file, FileRead(d).path, FileRead(d).oldPath.value, FileRead(d).status);
  }

  lemma WithHunks(d: PatchDocument)
    requires Fits(d) && d.diff.hunks != []
    ensures FileRead(d) == d.file <==> Readable(d)
  {
    PathsReadWhen(d);
    SameFile(d.file, FileRead(d).path, FileRead(d).oldPath.value, FileRead(d).status);
  }

  lemma ReadableWhen(d: PatchDocument)
    requires Fits(d)
    ensures FileRead(d) == d.file <==> Readable(d)
  {
    if d.diff.hunks == [] {
      WithoutHunks(d);
    } else {
      WithHunks(d);
    }
  }

  lemma RenameHeadersRead(d: PatchDocument)
    requires Fits(d)
    ensures var names := NamesRead(d.file.oldPath.value, d.file.path);
            Steps(NewBuilder(names.0, names.1), RenameHeaders(d)) == Ok(HeadersRead(RenameRead(d)))
  {
    var names := NamesRead(d.file.oldPath.value, d.file.path);
    var b := NewBuilder(names.0, names.1);
    if d.file.status.Renamed? {
      AlonePath(d.file.oldPath.value);
      AlonePath(d.file.path);
      RenameFromStep(b, GitText(d.file.oldPath.value));
      RenameToStep(b.(oldPath := Some(ReadAlone(d.file.oldPath.value))), GitText(d.file.path));
      TwoSteps(b, "rename from " + GitText(d.file.oldPath.value), "rename to " + GitText(d.file.path));
    }
  }

  lemma AlonePath(path: string)
    requires IsBytes(path)
    ensures ParseGitPath(GitText(path)) == Ok(ReadAlone(path))
  {
    TextParses(path, "");
    assert GitText(path) + "" == GitText(path) && path + "" == path;
  }

  lemma NameHeadersRead(d: PatchDocument)
    requires Fits(d)
    ensures Steps(HeadersRead(RenameRead(d)), NameHeaders(d)) == Ok(HeadersRead(FileRead(d)))
  {
    var b := HeadersRead(RenameRead(d));
    if d.diff.hunks != [] {
      NameParses("a/", d.file.oldPath.value);
      NameParses("b/", d.file.path);
      OldNameStep(b, OldHeader(d));
      var next := StepLine(b, "--- " + OldHeader(d)).value;
      NewNameStep(next, NewHeader(d));
      TwoSteps(b, "--- " + OldHeader(d), "+++ " + NewHeader(d));
    }
  }

  lemma HeadersInner(d: PatchDocument)
    requires Fits(d)
    ensures forall line | line in RenameHeaders(d) + NameHeaders(d) :: InnerLine(line)
  {
    RenameHeadersInner(d);
    NameHeadersInner(d);
  }

  lemma RenameHeadersInner(d: PatchDocument)
    requires Fits(d)
    ensures forall line | line in RenameHeaders(d) :: InnerLine(line)
  {
    TextInner(d.file.oldPath.value);
    TextInner(d.file.path);
    NotGitLine("rename from " + GitText(d.file.oldPath.value));
    NotGitLine("rename to " + GitText(d.file.path));
  }

  lemma MarkedInner(mark: string, name: string)
    requires (mark == "--- " || mark == "+++ ") && '\n' !in name
    ensures InnerLine(mark + name)
  {
    NotGitLine(mark + name);
    assert forall c | c in mark + name :: c in mark || c in name;
  }

  lemma NameHeadersInner(d: PatchDocument)
    requires Fits(d)
    ensures forall line | line in NameHeaders(d) :: InnerLine(line)
  {
    NameParses("a/", d.file.oldPath.value);
    NameParses("b/", d.file.path);
    MarkedInner("--- ", OldHeader(d));
    MarkedInner("+++ ", NewHeader(d));
  }

  lemma GitFileSays(d: PatchDocument)
    requires Fits(d)
    ensures Says(GitFile(d))
  {
    var names := NamesRead(d.file.oldPath.value, d.file.path);
    NamesReadWhen(d.file.oldPath.value, d.file.path);
    RenameHeadersRead(d);
    NameHeadersRead(d);
    StepsConcat(NewBuilder(names.0, names.1), RenameHeaders(d), NameHeaders(d));
    HeadersInner(d);
    TextInner("a/" + d.file.oldPath.value);
    TextInner("b/" + d.file.path);
  }

  lemma PrefixedBytes(d: PatchDocument)
    requires DocumentFits(d)
    ensures Fits(d)
  {
    PrefixedPath("a/", d.file.oldPath.value);
    PrefixedPath("b/", d.file.path);
  }

  function GitFiles(documents: seq<PatchDocument>): seq<FileText>
    requires AllFit(documents)
  {
    if documents == [] then []
    else
      PrefixedBytes(documents[0]);
      [GitFile(documents[0])] + GitFiles(documents[1..])
  }

  predicate AllReadable(documents: seq<PatchDocument>)
    requires AllFit(documents)
  {
    documents == [] || (Readable(documents[0]) && AllReadable(documents[1..]))
  }

  lemma {:induction false} AllGitFilesSay(documents: seq<PatchDocument>)
    requires AllFit(documents)
    ensures AllSay(GitFiles(documents))
  {
    if documents != [] {
      PrefixedBytes(documents[0]);
      GitFileSays(documents[0]);
      AllGitFilesSay(documents[1..]);
    }
  }

  lemma SameDocument(d: PatchDocument)
    requires DocumentFits(d)
    ensures Fits(d)
    ensures ReadDocument(d) == d <==> Readable(d)
  {
    PrefixedBytes(d);
    ReadableWhen(d);
  }

  /** A document as it is read back. */
  function ReadDocument(d: PatchDocument): PatchDocument
    requires Fits(d)
  {
    DocumentWith(FileRead(d), d.diff.hunks)
  }

  lemma GitFileRead(d: PatchDocument, files: seq<FileText>)
    requires Fits(d)
    ensures DocumentsOf([GitFile(d)] + files) == [ReadDocument(d)] + DocumentsOf(files)
  {
    DocumentsCons(GitFile(d), files);
  }

  /** The documents as they are read back. */
  function ReadDocuments(documents: seq<PatchDocument>): (read: seq<PatchDocument>)
    requires AllFit(documents)
    ensures |read| == |documents|
  {
    if documents == [] then []
    else
      PrefixedBytes(documents[0]);
      [ReadDocument(documents[0])] + ReadDocuments(documents[1..])
  }

  lemma GitFilesCons(documents: seq<PatchDocument>)
    requires AllFit(documents) && documents != []
    ensures Fits(documents[0]) && GitFiles(documents) == [GitFile(documents[0])] + GitFiles(documents[1..])
    ensures ReadDocuments(documents) == [ReadDocument(documents[0])] + ReadDocuments(documents[1..])
  {
    PrefixedBytes(documents[0]);
  }

  lemma {:induction false} GitFilesRead(documents: seq<PatchDocument>)
    requires AllFit(documents)
    ensures DocumentsOf(GitFiles(documents)) == ReadDocuments(documents)
  {
    if documents != [] {
      GitFilesCons(documents);
      GitFileRead(documents[0], GitFiles(documents[1..]));
      GitFilesRead(documents[1..]);
    }
  }

  lemma {:induction false} ReadWhen(documents: seq<PatchDocument>)
    requires AllFit(documents)
    ensures ReadDocuments(documents) == documents <==> AllReadable(documents)
  {
    if documents != [] {
      GitFilesCons(documents);
      SameDocument(documents[0]);
      ReadWhen(documents[1..]);
      ConsEqual(ReadDocument(documents[0]), ReadDocuments(documents[1..]), documents[0], documents[1..]);
      FirstAndRest(documents);
    }
  }

  lemma FirstAndRest(documents: seq<PatchDocument>)
    requires documents != []
    ensures documents == [documents[0]] + documents[1..]
  {
  }

  lemma DocumentsReadWhen(documents: seq<PatchDocument>)
    requires AllFit(documents)
    ensures |DocumentsOf(GitFiles(documents))| == |documents|
    ensures DocumentsOf(GitFiles(documents)) == documents <==> AllReadable(documents)
  {
    GitFilesRead(documents);
    ReadWhen(documents);
  }

  lemma DocumentsCons(file: FileText, files: seq<FileText>)
    ensures DocumentsOf([file] + files) == [DocumentWith(file.file, file.hunks)] + DocumentsOf(files)
  {
    assert ([file] + files)[1..] == files;
  }

  lemma ConsEqual(a: PatchDocument, rest: seq<PatchDocument>, b: PatchDocument, others: seq<PatchDocument>)
    ensures [a] + rest == [b] + others <==> a == b && rest == others
  {
    assert ([a] + rest)[0] == a && ([a] + rest)[1..] == rest && ([b] + others)[0] == b && ([b] + others)[1..] == others;
  }

  /** The patch Git prints for these documents. */
  /** The lines of a patch in Git's own form. */
  function GitLines(documents: seq<PatchDocument>): seq<string>
    requires AllFit(documents)
  {
    AllGitFilesSay(documents);
    AllLines(GitFiles(documents))
  }

  function GitPatchText(documents: seq<PatchDocument>): string
    requires AllFit(documents)
  {
    AllGitFilesSay(documents);
    PatchText(GitFiles(documents))
  }

  lemma GitPatchHasLines(documents: seq<PatchDocument>)
    requires AllFit(documents)
    ensures Texts(SplitLines(GitPatchText(documents))) == GitLines(documents)
  {
    AllGitFilesSay(documents);
    TextHasLines(GitFiles(documents));
  }

  /** A patch in Git's own form, with any further header lines of Git or other inert lines anywhere in it, is read back
      exactly when no row collides with a file header and every file can be read. Without a collision it is read in any
      case, as the documents that `FileRead` gives; with one there is an error. */
  lemma GitPatchReadsBack(documents: seq<PatchDocument>, patch: string)
    requires AllFit(documents) && (documents == [] ==> patch == "")
    requires Kept(Texts(SplitLines(patch))) == Kept(GitLines(documents))
    ensures var r := ParsePatch(patch);
            && (r == Ok(documents) <==> !Collide(GitFiles(documents)) && AllReadable(documents))
            && (if Collide(GitFiles(documents)) then r.Err? else r == Ok(DocumentsOf(GitFiles(documents))))
  {
    AllGitFilesSay(documents);
    DocumentsReadWhen(documents);
    if documents == [] {
      PatchRoundTrip.TextParses([]);
      assert PatchText([]) == "";
    } else {
      PatchParses(GitFiles(documents), patch);
    }
  }
}
