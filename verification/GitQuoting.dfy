/** Git's C-style path quoting: the header tokenizer of crates/diff/src/lib.rs, the porcelain path decoder of
    crates/git/src/lib.rs, and the quotings both invert. A string is a sequence of bytes here, one char each. */
module GitQuoting {
  import opened Words
  import opened Wrappers

  datatype QuoteError = Malformed

  /* ---- The header tokenizer ---- */

  predicate IsOctal(c: char) {
    '0' <= c <= '7'
  }

  function Digit(c: char): nat
    requires '0' <= c <= '9'
  {
    c as int - '0' as int
  }

  /** The text without its leading white space. */
  function SkipSpace(s: string): (rest: string)
    ensures |rest| <= |s| && (rest != "" ==> !IsAsciiSpace(rest[0]))
  {
    if s != "" && IsAsciiSpace(s[0]) then SkipSpace(s[1..]) else s
  }

  /** Length of the leading stretch without white space. */
  function PlainLength(s: string): (n: nat)
    ensures n <= |s|
    ensures s != "" && !IsAsciiSpace(s[0]) ==> n > 0
  {
    if s != "" && !IsAsciiSpace(s[0]) then 1 + PlainLength(s[1..]) else 0
  }

  function Saturate(n: nat): nat {
    if n > 255 then 255 else n
  }

  function Byte(n: nat): char
    requires n < 256
  {
    n as char
  }

  /** The first byte of a quoted text, and the text after it. */
  function Unescape(s: string): (r: Result<(char, string), QuoteError>)
    requires s != ""
    ensures r.Ok? ==> |r.value.1| < |s|
  {
    if s[0] != '\\' then Ok((s[0], s[1..]))
    else if |s| < 2 then Err(Malformed)
    else
      var escaped := s[1];
      if escaped == 'n' then Ok(('\n', s[2..]))
      else if escaped == 't' then Ok(('\t', s[2..]))
      else if escaped == 'r' then Ok(('\r', s[2..]))
      else if IsOctal(escaped) then
        if |s| < 4 || !IsOctal(s[2]) || !IsOctal(s[3]) then Err(Malformed)
        else
          var two := Saturate(Saturate(Digit(escaped) * 8) + Digit(s[2]));
          Ok((Byte(Saturate(Saturate(two * 8) + Digit(s[3]))), s[4..]))
      else Ok((escaped, s[2..]))
  }

  /** What a backslash means in a header: three octal digits a byte, 255 at most, and fewer an error; three letters white
      space; any other character itself. */
  lemma EscapeMeans(c: char, rest: string)
    ensures Unescape(['\\', c] + rest) ==
            if '0' <= c <= '7' then
              if |rest| < 2 || !('0' <= rest[0] <= '7') || !('0' <= rest[1] <= '7') then Err(Malformed)
              else
                var n := (c as int - 48) * 64 + (rest[0] as int - 48) * 8 + (rest[1] as int - 48);
                Ok((if n > 255 then 255 as char else n as char, rest[2..]))
            else Ok((if c == 'n' then '\n' else if c == 't' then '\t' else if c == 'r' then '\r' else c, rest))
  {
    var s := ['\\', c] + rest;
    assert s[1] == c && s[2..] == rest && (|rest| > 0 ==> s[2] == rest[0]) && (|rest| > 1 ==> s[3] == rest[1]);
    assert |rest| > 1 ==> s[4..] == rest[2..];
  }

  /** The bytes up to the closing quote, and the text after it. */
  function Unquote(s: string): (r: Result<(string, string), QuoteError>)
    ensures r.Ok? ==> |r.value.1| < |s|
    decreases |s|
  {
    if s == "" then Err(Malformed)
    else if s[0] == '"' then Ok(("", s[1..]))
    else
      var (c, next) :- Unescape(s);
      var (token, rest) :- Unquote(next);
      Ok(([c] + token, rest))
  }

  function Tokens(text: string): Result<seq<string>, QuoteError>
    decreases |text|
  {
    var s := SkipSpace(text);
    if s == "" then Ok([])
    else if s[0] != '"' then
      var n := PlainLength(s);
      Extended([s[..n]], Tokens(s[n..]))
    else
      var (token, rest) :- Unquote(s[1..]);
      Extended([token], Tokens(rest))
  }

  function AfterRaw(raw: string, rest: Result<(string, string), QuoteError>): Result<(string, string), QuoteError> {
    match rest
    case Ok((token, end)) => Ok((raw + token, end))
    case Err(e) => Err(e)
  }

  lemma AfterStep(raw: string, c: char, rest: Result<(string, string), QuoteError>)
    ensures AfterRaw("", rest) == rest
    ensures AfterRaw(raw, AfterRaw([c], rest)) == AfterRaw(raw + [c], rest)
  {
    if rest.Ok? {
      assert "" + rest.value.0 == rest.value.0;
      assert raw + ([c] + rest.value.0) == raw + [c] + rest.value.0;
    }
  }

  lemma SliceOfSlice(s: string, start: nat, n: nat)
    requires start + n <= |s|
    ensures s[start..][..n] == s[start..start + n] && s[start..][n..] == s[start + n..]
  {
  }

  lemma UnescapeSuffix(text: string)
    requires text != ""
    ensures Unescape(text).Ok? ==> Unescape(text).value.1 == text[|text| - |Unescape(text).value.1|..]
  {
  }

  lemma UnescapeSuffixAt(s: string, index: nat)
    requires index < |s|
    ensures Unescape(s[index..]).Ok? ==>
              var rest := Unescape(s[index..]).value.1; |rest| < |s| - index && s[|s| - |rest|..] == rest
  {
    var text := s[index..];
    if Unescape(text).Ok? {
      UnescapeSuffix(text);
      SliceOfSlice(s, index, |text| - |Unescape(text).value.1|);
    }
  }

  /** One byte, or an error, or the end of a quoted text. */
  lemma UnquoteStep(raw: string, text: string)
    requires text != ""
    ensures text[0] == '"' ==> AfterRaw(raw, Unquote(text)) == Ok((raw, text[1..]))
    ensures text[0] != '"' && Unescape(text).Err? ==> AfterRaw(raw, Unquote(text)) == Err(Unescape(text).error)
    ensures text[0] != '"' && Unescape(text).Ok? ==>
              AfterRaw(raw, Unquote(text)) == AfterRaw(raw + [Unescape(text).value.0], Unquote(Unescape(text).value.1))
  {
    assert raw + "" == raw;
    if text[0] != '"' && Unescape(text).Ok? {
      AfterStep(raw, Unescape(text).value.0, Unquote(Unescape(text).value.1));
    }
  }

  /** The token quoted from `start` on, and the position after its closing quote. */
  predicate IsQuotedAt(s: string, start: nat, r: Result<(string, nat), QuoteError>)
    requires start <= |s|
  {
    match Unquote(s[start..])
    case Ok((token, rest)) => r == Ok((token, |s| - |rest|)) && start < r.value.1 <= |s| && s[r.value.1..] == rest
    case Err(e) => r == Err(e)
  }

  /** From `start` up to `index` these bytes have been read, and the quoted text goes on. */
  predicate Scanned(s: string, start: nat, index: nat, raw: string) {
    start <= index <= |s| && Unquote(s[start..]) == AfterRaw(raw, Unquote(s[index..]))
  }

  lemma QuoteCloses(s: string, start: nat, index: nat, raw: string)
    requires Scanned(s, start, index, raw) && index < |s| && s[index] == '"'
    ensures IsQuotedAt(s, start, Ok((raw, index + 1)))
  {
    UnquoteStep(raw, s[index..]);
    SliceOfSlice(s, index, 1);
  }

  lemma QuoteGoesOn(s: string, start: nat, index: nat, raw: string)
    requires Scanned(s, start, index, raw) && index < |s| && s[index] != '"'
    ensures Unescape(s[index..]).Err? ==> IsQuotedAt(s, start, Err(Unescape(s[index..]).error))
    ensures Unescape(s[index..]).Ok? ==>
              var (c, rest) := Unescape(s[index..]).value;
              index < |s| - |rest| && Scanned(s, start, |s| - |rest|, raw + [c])
  {
    UnquoteStep(raw, s[index..]);
    UnescapeSuffixAt(s, index);
  }

  /** One byte of a quoted text, and the position after it. */
  method ScanByte(s: string, index: nat, ghost start: nat, ghost raw: string) returns (r: Result<(char, nat), QuoteError>)
    requires Scanned(s, start, index, raw) && index < |s| && s[index] != '"'
    ensures match r
            case Ok((c, next)) => index < next && Scanned(s, start, next, raw + [c])
            case Err(e) => IsQuotedAt(s, start, Err(e))
  {
    QuoteGoesOn(s, start, index, raw);
    var step := Unescape(s[index..]);
    r := if step.Err? then Err(step.error) else Ok((step.value.0, |s| - |step.value.1|));
  }

  lemma NothingScanned(s: string, start: nat)
    requires start <= |s|
    ensures Scanned(s, start, start, "")
  {
    AfterStep("", ' ', Unquote(s[start..]));
  }

  lemma NeverCloses(s: string, start: nat, raw: string)
    requires Scanned(s, start, |s|, raw)
    ensures IsQuotedAt(s, start, Err(Malformed))
  {
  }

  method ScanQuoted(s: string, start: nat) returns (r: Result<(string, nat), QuoteError>)
    requires start <= |s|
    ensures IsQuotedAt(s, start, r)
  {
    var raw: string, index := "", start;
    NothingScanned(s, start);
    while index < |s|
      invariant index <= |s| && Scanned(s, start, index, raw)
    {
      if s[index] == '"' {
        QuoteCloses(s, start, index, raw);
        return Ok((raw, index + 1));
      }
      var step := ScanByte(s, index, start, raw);
      if step.Err? {
        return Err(step.error);
      }
      raw, index := raw + [step.value.0], step.value.1;
    }
    NeverCloses(s, start, raw);
    r := Err(Malformed);
  }

  /** Where the next token starts. */
  method ScanSpace(s: string, index: nat) returns (start: nat)
    requires index <= |s|
    ensures index <= start <= |s| && SkipSpace(s[index..]) == s[start..]
  {
    start := index;
    while start < |s| && IsAsciiSpace(s[start])
      invariant index <= start <= |s|
      invariant SkipSpace(s[index..]) == SkipSpace(s[start..])
    {
      assert s[start..][1..] == s[start + 1..];
      start := start + 1;
    }
  }

  method ScanPlain(s: string, start: nat) returns (end: nat)
    requires start <= |s|
    ensures end == start + PlainLength(s[start..]) && start <= end <= |s|
  {
    end := start;
    while end < |s| && !IsAsciiSpace(s[end])
      invariant start <= end <= |s|
      invariant start + PlainLength(s[start..]) == end + PlainLength(s[end..])
    {
      assert s[end..][1..] == s[end + 1..];
      end := end + 1;
    }
  }

  lemma PlainTokens(text: string)
    requires text != "" && !IsAsciiSpace(text[0]) && text[0] != '"'
    ensures Tokens(text) == Extended([text[..PlainLength(text)]], Tokens(text[PlainLength(text)..]))
  {
    assert SkipSpace(text) == text;
  }

  lemma QuotedTokens(text: string)
    requires text != "" && text[0] == '"'
    ensures match Unquote(text[1..])
            case Ok((token, rest)) => Tokens(text) == Extended([token], Tokens(rest))
            case Err(e) => Tokens(text) == Err(e)
  {
    assert SkipSpace(text) == text;
  }

  /** A token starting at `start`, and the position after it. */
  predicate IsTokenAt(s: string, start: nat, r: Result<(string, nat), QuoteError>)
    requires start <= |s|
  {
    match r
    case Ok((token, end)) => start < end <= |s| && Tokens(s[start..]) == Extended([token], Tokens(s[end..]))
    case Err(e) => Tokens(s[start..]) == Err(e)
  }

  lemma PlainTokenAt(s: string, start: nat, end: nat)
    requires start < end <= |s| && !IsAsciiSpace(s[start]) && s[start] != '"' && end == start + PlainLength(s[start..])
    ensures Tokens(s[start..]) == Extended([s[start..end]], Tokens(s[end..]))
  {
    PlainTokens(s[start..]);
    SliceOfSlice(s, start, end - start);
  }

  lemma QuotedTokenAt(s: string, start: nat, r: Result<(string, nat), QuoteError>)
    requires start < |s| && s[start] == '"'
    requires IsQuotedAt(s, start + 1, r)
    ensures IsTokenAt(s, start, r)
  {
    QuotedTokens(s[start..]);
    assert s[start..][1..] == s[start + 1..];
  }

  method ScanToken(s: string, start: nat) returns (r: Result<(string, nat), QuoteError>)
    requires start < |s| && !IsAsciiSpace(s[start])
    ensures IsTokenAt(s, start, r)
  {
    if s[start] != '"' {
      var end := ScanPlain(s, start);
      PlainTokenAt(s, start, end);
      r := Ok((s[start..end], end));
    } else {
      r := ScanQuoted(s, start + 1);
      QuotedTokenAt(s, start, r);
    }
  }

  method ParseGitHeaderTokens(s: string) returns (r: Result<seq<string>, QuoteError>)
    ensures r == Tokens(s)
  {
    var tokens: seq<string>, index := [], 0;
    ExtendedMore([], "", Tokens(s));
    assert s[0..] == s;
    while index < |s|
      invariant index <= |s|
      invariant Tokens(s) == Extended(tokens, Tokens(s[index..]))
      decreases |s| - index
    {
      var start := ScanSpace(s, index);
      if start == |s| {
        assert tokens + [] == tokens;
        return Ok(tokens);
      }
      TokensSkip(s[index..]);
      var scanned := ScanToken(s, start);
      if scanned.Err? {
        return Err(scanned.error);
      }
      ExtendedMore(tokens, scanned.value.0, Tokens(s[scanned.value.1..]));
      tokens, index := tokens + [scanned.value.0], scanned.value.1;
    }
    assert tokens + [] == tokens;
    r := Ok(tokens);
  }

  lemma TokensSkip(s: string)
    ensures Tokens(s) == Tokens(SkipSpace(s))
  {
    assert SkipSpace(SkipSpace(s)) == SkipSpace(s);
  }

  /* ---- The porcelain path decoder ---- */

  /** The first byte of the text between the quotes, and the text after it. */
  function DecodeByte(s: string): (r: (char, string))
    requires s != ""
    ensures |r.1| < |s|
  {
    if s[0] != '\\' then (s[0], s[1..])
    else if |s| < 2 then ('\\', s[1..])
    else
      var escaped := s[1];
      if IsOctal(escaped) && |s| > 3 && IsOctal(s[2]) && IsOctal(s[3]) then
        (Byte((Digit(escaped) * 64 + Digit(s[2]) * 8 + Digit(s[3])) % 256), s[4..])
      else
        (match escaped
         case 'a' => Byte(7)
         case 'b' => Byte(8)
         case 'f' => Byte(12)
         case 'n' => '\n'
         case 'r' => '\r'
         case 't' => '\t'
         case other => other, s[2..])
  }

  /** What a backslash means in a path: three octal digits a byte, six letters control characters, and any other character,
      a digit without two more included, itself. */
  lemma DecodedEscape(c: char, rest: string)
    ensures DecodeByte(['\\', c] + rest) ==
            if '0' <= c <= '7' && |rest| >= 2 && '0' <= rest[0] <= '7' && '0' <= rest[1] <= '7' then
              ((((c as int - 48) * 64 + (rest[0] as int - 48) * 8 + (rest[1] as int - 48)) % 256) as char, rest[2..])
            else
              (if c == 'a' then 7 as char else if c == 'b' then 8 as char else if c == 'f' then 12 as char
               else if c == 'n' then 10 as char else if c == 'r' then 13 as char else if c == 't' then 9 as char else c, rest)
  {
    var s := ['\\', c] + rest;
    assert s[1] == c && s[2..] == rest && (|rest| > 0 ==> s[2] == rest[0]) && (|rest| > 1 ==> s[3] == rest[1]);
    assert |rest| > 1 ==> s[4..] == rest[2..];
  }

  function Decode(s: string): string
    decreases |s|
  {
    if s == "" then ""
    else
      var (c, rest) := DecodeByte(s);
      [c] + Decode(rest)
  }

  predicate IsQuoted(s: string) {
    |s| >= 2 && s[0] == '"' && s[|s| - 1] == '"'
  }

  lemma DecodeStep(path: string, text: string)
    requires text != ""
    ensures path + Decode(text) == (path + [DecodeByte(text).0]) + Decode(DecodeByte(text).1)
  {
    OneAfter(path, DecodeByte(text).0, Decode(DecodeByte(text).1));
  }

  lemma OneAfter(path: string, c: char, rest: string)
    ensures path + ([c] + rest) == (path + [c]) + rest
  {
  }

  lemma DecodeSuffix(text: string)
    requires text != ""
    ensures DecodeByte(text).1 == text[|text| - |DecodeByte(text).1|..]
  {
  }

  /** Up to `index` the path has been decoded. */
  predicate Decoded(body: string, index: nat, path: string) {
    index <= |body| && path + Decode(body[index..]) == Decode(body)
  }

  lemma DecodeGoesOn(body: string, index: nat, path: string)
    requires Decoded(body, index, path) && index < |body|
    ensures var (c, rest) := DecodeByte(body[index..]);
            index < |body| - |rest| && Decoded(body, |body| - |rest|, path + [c])
  {
    var text := body[index..];
    DecodeStep(path, text);
    DecodeSuffix(text);
    SliceOfSlice(body, index, |text| - |DecodeByte(text).1|);
  }

  lemma NothingDecoded(body: string)
    ensures Decoded(body, 0, "")
  {
    assert body[0..] == body && "" + Decode(body) == Decode(body);
  }

  lemma AllDecoded(body: string, path: string)
    requires Decoded(body, |body|, path)
    ensures path == Decode(body)
  {
  }

  method DecodeNext(body: string, index: nat, ghost path: string) returns (c: char, next: nat)
    requires Decoded(body, index, path) && index < |body|
    ensures index < next && Decoded(body, next, path + [c])
  {
    DecodeGoesOn(body, index, path);
    var step := DecodeByte(body[index..]);
    c, next := step.0, |body| - |step.1|;
  }

  method DecodeGitQuotedPath(s: string) returns (path: string)
    ensures path == if IsQuoted(s) then Decode(s[1..|s| - 1]) else s
  {
    if !IsQuoted(s) {
      return s;
    }
    var body, index := s[1..|s| - 1], 0;
    path := "";
    NothingDecoded(body);
    while index < |body|
      invariant Decoded(body, index, path)
    {
      var c, next := DecodeNext(body, index, path);
      path, index := path + [c], next;
    }
    AllDecoded(body, path);
  }

  /* ---- Quotings ---- */

  /** How one byte of a path is written between quotes. */
  datatype Piece = Plain(c: char) | Named(c: char) | Octal(c: char) {
    predicate Valid() {
      match this
      case Plain(c) => c != '"' && c != '\\'
      case Named(c) => c == '"' || c == '\\' || c == '\n' || c == '\t' || c == '\r'
      case Octal(c) => c as int < 256
    }

    function Text(): string
      requires Valid()
    {
      match this
      case Plain(c) => [c]
      case Named(c) => ['\\', if c == '\n' then 'n' else if c == '\t' then 't' else if c == '\r' then 'r' else c]
      case Octal(c) => ['\\', OctalDigit(c as int / 64), OctalDigit(c as int / 8 % 8), OctalDigit(c as int % 8)]
    }
  }

  function OctalDigit(n: nat): (c: char)
    requires n < 8
    ensures IsOctal(c) && Digit(c) == n
  {
    ('0' as int + n) as char
  }

  predicate AllValid(pieces: seq<Piece>) {
    forall p | p in pieces :: p.Valid()
  }

  function Escaped(pieces: seq<Piece>): string
    requires AllValid(pieces)
  {
    if pieces == [] then "" else pieces[0].Text() + Escaped(pieces[1..])
  }

  function Bytes(pieces: seq<Piece>): string {
    if pieces == [] then "" else [pieces[0].c] + Bytes(pieces[1..])
  }

  function Quote(pieces: seq<Piece>): string
    requires AllValid(pieces)
  {
    "\"" + Escaped(pieces) + "\""
  }

  lemma OctalValue(n: nat)
    requires n < 256
    ensures n / 64 < 8
    ensures n / 64 * 64 + n / 8 % 8 * 8 + n % 8 == n
    ensures Saturate(Saturate(Saturate(Saturate(n / 64 * 8) + n / 8 % 8) * 8) + n % 8) == n
  {
  }

  lemma PieceStep(piece: Piece, rest: string)
    requires piece.Valid()
    ensures var s := piece.Text() + rest;
            s[0] != '"' && Unescape(s) == Ok((piece.c, rest)) && DecodeByte(s) == (piece.c, rest)
  {
    var s := piece.Text() + rest;
    assert s[|piece.Text()|..] == rest;
    if piece.Octal? {
      var n := piece.c as int;
      OctalValue(n);
      assert s[1] == OctalDigit(n / 64) && s[2] == OctalDigit(n / 8 % 8) && s[3] == OctalDigit(n % 8);
    }
  }

  lemma {:induction false} UnquoteInverts(pieces: seq<Piece>, rest: string)
    requires AllValid(pieces)
    ensures Unquote(Escaped(pieces) + "\"" + rest) == Ok((Bytes(pieces), rest))
  {
    var s := Escaped(pieces) + "\"" + rest;
    if pieces == [] {
      assert s == "\"" + rest && s[1..] == rest;
    } else {
      var tail := Escaped(pieces[1..]) + "\"" + rest;
      assert pieces[0].Valid();
      assert s == pieces[0].Text() + tail;
      PieceStep(pieces[0], tail);
      UnquoteInverts(pieces[1..], rest);
    }
  }

  lemma {:induction false} DecodeInverts(pieces: seq<Piece>)
    requires AllValid(pieces)
    ensures Decode(Escaped(pieces)) == Bytes(pieces)
  {
    if pieces != [] {
      assert pieces[0].Valid();
      PieceStep(pieces[0], Escaped(pieces[1..]));
      DecodeInverts(pieces[1..]);
    }
  }

  /** The porcelain decoder inverts every quoting. */
  lemma PorcelainDecoderInverts(pieces: seq<Piece>)
    requires AllValid(pieces)
    ensures var s := Quote(pieces);
            IsQuoted(s) && Decode(s[1..|s| - 1]) == Bytes(pieces)
  {
    assert Quote(pieces)[1..|Quote(pieces)| - 1] == Escaped(pieces);
    DecodeInverts(pieces);
  }

  /* ---- Header tokens ---- */

  datatype Token = Bare(text: string) | Quoted(pieces: seq<Piece>) {
    predicate Valid() {
      match this
      case Bare(text) => text != "" && text[0] != '"' && forall c | c in text :: !IsAsciiSpace(c)
      case Quoted(pieces) => AllValid(pieces)
    }

    function Text(): string
      requires Valid()
    {
      match this
      case Bare(text) => text
      case Quoted(pieces) => Quote(pieces)
    }

    function Value(): string {
      match this
      case Bare(text) => text
      case Quoted(pieces) => Bytes(pieces)
    }
  }

  predicate AllTokensValid(tokens: seq<Token>) {
    forall t | t in tokens :: t.Valid()
  }

  /** Tokens on one line, each after a space. */
  function SpacedTokens(tokens: seq<Token>): string
    requires AllTokensValid(tokens)
  {
    if tokens == [] then "" else " " + tokens[0].Text() + SpacedTokens(tokens[1..])
  }

  function Values(tokens: seq<Token>): seq<string> {
    if tokens == [] then [] else [tokens[0].Value()] + Values(tokens[1..])
  }

  lemma {:induction false} BareLength(text: string, rest: string)
    requires forall c | c in text :: !IsAsciiSpace(c)
    requires rest == "" || IsAsciiSpace(rest[0])
    ensures PlainLength(text + rest) == |text|
  {
    if text == "" {
      assert text + rest == rest;
    } else {
      assert (text + rest)[1..] == text[1..] + rest;
      assert text[0] in text;
      BareLength(text[1..], rest);
    }
  }

  lemma BareStep(text: string, rest: string)
    requires Bare(text).Valid()
    requires rest == "" || IsAsciiSpace(rest[0])
    ensures Tokens(text + rest) == Extended([text], Tokens(rest))
  {
    var s := text + rest;
    assert text[0] in text && s[0] == text[0];
    assert SkipSpace(s) == s;
    BareLength(text, rest);
    assert s[..|text|] == text && s[|text|..] == rest;
  }

  lemma QuotedStep(pieces: seq<Piece>, rest: string)
    requires AllValid(pieces)
    ensures Tokens(Quote(pieces) + rest) == Extended([Bytes(pieces)], Tokens(rest))
  {
    var s := Quote(pieces) + rest;
    assert SkipSpace(s) == s;
    assert s[1..] == Escaped(pieces) + "\"" + rest;
    UnquoteInverts(pieces, rest);
  }

  /** One token at the front, followed by a space or the end. */
  lemma TokenStep(token: Token, rest: string)
    requires token.Valid()
    requires rest == "" || IsAsciiSpace(rest[0])
    ensures Tokens(token.Text() + rest) == Extended([token.Value()], Tokens(rest))
  {
    match token {
      case Bare(text) => BareStep(text, rest);
      case Quoted(pieces) => QuotedStep(pieces, rest);
    }
  }

  lemma LeadingSpace(s: string)
    ensures Tokens(" " + s) == Tokens(s)
  {
    assert (" " + s)[1..] == s;
    assert SkipSpace(" " + s) == SkipSpace(s);
  }

  lemma {:induction false} SpacedInverts(tokens: seq<Token>)
    requires AllTokensValid(tokens)
    ensures Tokens(SpacedTokens(tokens)) == Ok(Values(tokens))
  {
    if tokens != [] {
      assert tokens[0].Valid();
      assert SpacedTokens(tokens) == " " + (tokens[0].Text() + SpacedTokens(tokens[1..]));
      LeadingSpace(tokens[0].Text() + SpacedTokens(tokens[1..]));
      TokenStep(tokens[0], SpacedTokens(tokens[1..]));
      SpacedInverts(tokens[1..]);
    }
  }

  /** The tokenizer recovers every list of bare and quoted tokens. */
  lemma TokenizerInverts(first: Token, tokens: seq<Token>)
    requires first.Valid() && AllTokensValid(tokens)
    ensures Tokens(first.Text() + SpacedTokens(tokens)) == Ok([first.Value()] + Values(tokens))
  {
    TokenStep(first, SpacedTokens(tokens));
    SpacedInverts(tokens);
  }
}
