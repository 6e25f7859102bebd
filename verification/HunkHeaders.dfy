/** Unified hunk headers: `parse_hunk_header` and `parse_range` of crates/diff/src/lib.rs, and their printer.
    The printed form is POSIX diff, section "Diff -u or -U Output Format". */
module HunkHeaders {
  import opened Wrappers
  import opened Document
  import opened GitQuoting
  import opened Words

  datatype DiffError =
    | MissingFileHeader
    | InvalidHunkHeader(text: string)
    | InvalidHunkLine
    | HunkLineCountMismatch(oldExpected: nat, newExpected: nat, oldActual: nat, newActual: nat)
    | MissingNoNewlineTarget

  function StripPrefix(s: string, prefix: string): Option<string> {
    if prefix <= s then Some(s[|prefix|..]) else None
  }

  /* ---- Numbers ---- */

  predicate IsDigit(c: char) {
    '0' <= c <= '9'
  }

  predicate AllDigits(s: string) {
    forall c | c in s :: IsDigit(c)
  }

  function DigitsValue(s: string): nat
    requires AllDigits(s)
  {
    if s == "" then 0
    else
      assert s[|s| - 1] in s;
      DigitsValue(s[..|s| - 1]) * 10 + Digit(s[|s| - 1])
  }

  /** Rust's unsigned parsing: an optional plus sign, at least one digit, and no overflow. */
  function ParseU32(s: string): Option<nat> {
    var body := if s != "" && s[0] == '+' then s[1..] else s;
    if body == "" || !AllDigits(body) || DigitsValue(body) > U32_MAX then None else Some(DigitsValue(body))
  }

  function Decimal(n: nat): (s: string)
    ensures s != "" && AllDigits(s)
  {
    var last := ('0' as int + n % 10) as char;
    if n < 10 then [last] else Decimal(n / 10) + [last]
  }

  lemma {:induction false} DecimalValue(n: nat)
    ensures DigitsValue(Decimal(n)) == n
  {
    var last := ('0' as int + n % 10) as char;
    if n < 10 {
      assert [last][..0] == "";
    } else {
      DecimalValue(n / 10);
      assert (Decimal(n / 10) + [last])[..|Decimal(n / 10)|] == Decimal(n / 10);
    }
  }

  lemma DecimalParses(n: nat)
    requires n <= U32_MAX
    ensures ParseU32(Decimal(n)) == Some(n)
  {
    DecimalValue(n);
    assert Decimal(n)[0] in Decimal(n);
  }

  /* ---- Parsing ---- */

  function ParseRange(raw: string, prefix: char): Result<(nat, nat), DiffError> {
    if raw == "" || raw[0] != prefix then Err(InvalidHunkHeader(raw))
    else
      var value := raw[1..];
      var comma := Find(value, ',');
      var start := ParseU32(value[..comma]);
      var count := if comma < |value| then ParseU32(value[comma + 1..]) else Some(1);
      if start.None? || count.None? then Err(InvalidHunkHeader(raw)) else Ok((start.value, count.value))
  }

  function Find(s: string, c: char): (i: nat)
    ensures i <= |s|
  {
    if s == "" || s[0] == c then 0 else 1 + Find(s[1..], c)
  }

  /** Position of the first " @@", or the length when there is none. */
  function FindMark(s: string): (i: nat)
    ensures i < |s| ==> i + 3 <= |s|
    ensures i <= |s|
  {
    if |s| < 3 then |s| else if s[..3] == " @@" then 0 else 1 + FindMark(s[1..])
  }

  /** The header named by the words between the marks and the text after them. */
  function ParseParts(words: seq<string>, rest: string, line: string): Result<HunkHeader, DiffError> {
    if |words| == 0 then Err(InvalidHunkHeader(line))
    else
      var base :- ParseRange(words[0], '-');
      if |words| == 1 then Err(InvalidHunkHeader(line))
      else
        var current :- ParseRange(words[1], '+');
        if |words| > 2 then Err(InvalidHunkHeader(line))
        else
          var context := StripPrefix(rest, " ").GetOr(rest);
          Ok(HunkHeader(base.0, base.1, current.0, current.1, if context == "" then None else Some(context)))
  }

  function ParseHunkHeader(line: string): Result<HunkHeader, DiffError> {
    var body := StripPrefix(line, "@@ ");
    if body.None? then Err(InvalidHunkHeader(line))
    else
      var mark := FindMark(body.value);
      if mark == |body.value| then Err(InvalidHunkHeader(line))
      else ParseParts(Split(body.value[..mark]), body.value[mark + 3..], line)
  }

  /* ---- Printing ---- */

  /** Whether a count of one is left out, on the old side and on the new one. */
  datatype Form = Form(shortOld: bool, shortNew: bool)

  const GIT_FORM := Form(true, true)

  function RangeText(start: nat, count: nat, short: bool): string {
    if short && count == 1 then Decimal(start) else Decimal(start) + [','] + Decimal(count)
  }

  function PrintRange(prefix: char, start: nat, count: nat, short: bool): string {
    [prefix] + RangeText(start, count, short)
  }

  function PrintOld(header: HunkHeader, form: Form): string {
    PrintRange('-', header.oldStart, header.oldCount, form.shortOld)
  }

  function PrintNew(header: HunkHeader, form: Form): string {
    PrintRange('+', header.newStart, header.newCount, form.shortNew)
  }

  function PrintRanges(header: HunkHeader, form: Form): string {
    PrintOld(header, form) + (" " + PrintNew(header, form))
  }

  function PrintHeader(header: HunkHeader, form: Form): string {
    "@@ " + (PrintRanges(header, form) + " @@" + ContextText(header.context))
  }

  predicate Printable(header: HunkHeader) {
    && header.oldStart <= 0xFFFF_FFFF && header.oldCount <= 0xFFFF_FFFF
    && header.newStart <= 0xFFFF_FFFF && header.newCount <= 0xFFFF_FFFF
    && (header.context.Some? ==> header.context.value != "" && '\n' !in header.context.value)
  }

  lemma {:induction false} FindIn(s: string, c: char, rest: string)
    requires c !in s
    ensures Find(s + [c] + rest, c) == |s|
  {
    if s != "" {
      assert (s + [c] + rest)[1..] == s[1..] + [c] + rest;
      FindIn(s[1..], c, rest);
    }
  }

  lemma {:induction false} FindMarkAfter(s: string, rest: string)
    requires '@' !in s
    ensures FindMark(s + " @@" + rest) == |s|
  {
    var all := s + " @@" + rest;
    if s == "" {
      assert all[..3] == " @@";
    } else {
      assert all[1..] == s[1..] + " @@" + rest;
      assert all[1] == if |s| > 1 then s[1] else ' ';
      assert |s| > 1 ==> s[1] in s;
      assert all[..3][1] == all[1];
      FindMarkAfter(s[1..], rest);
    }
  }

  lemma {:induction false} FindNone(s: string, c: char)
    requires c !in s
    ensures Find(s, c) == |s|
  {
    if s != "" {
      FindNone(s[1..], c);
    }
  }

  lemma RangePrefix(raw: string, prefix: char, value: string)
    requires raw == [prefix] + value
    ensures raw != "" && raw[0] == prefix && raw[1..] == value
  {
  }

  lemma CommaSplits(value: string, a: string, b: string)
    requires value == a + [','] + b && ',' !in a
    ensures Find(value, ',') == |a| < |value| && value[..|a|] == a && value[|a| + 1..] == b
  {
    FindIn(a, ',', b);
  }

  lemma LongRange(raw: string, prefix: char, start: nat, count: nat)
    requires start <= U32_MAX && count <= U32_MAX && raw == [prefix] + RangeText(start, count, false)
    ensures ParseRange(raw, prefix) == Ok((start, count))
  {
    var value := RangeText(start, count, false);
    RangePrefix(raw, prefix, value);
    CommaSplits(value, Decimal(start), Decimal(count));
    DecimalParses(start);
    DecimalParses(count);
  }

  lemma ShortRange(raw: string, prefix: char, start: nat)
    requires start <= U32_MAX && raw == [prefix] + Decimal(start)
    ensures ParseRange(raw, prefix) == Ok((start, 1))
  {
    RangePrefix(raw, prefix, Decimal(start));
    FindNone(Decimal(start), ',');
    assert Decimal(start)[..|Decimal(start)|] == Decimal(start);
    DecimalParses(start);
  }

  lemma RangeParses(prefix: char, start: nat, count: nat, short: bool)
    requires start <= U32_MAX && count <= U32_MAX
    ensures ParseRange(PrintRange(prefix, start, count, short), prefix) == Ok((start, count))
  {
    if short && count == 1 {
      ShortRange(PrintRange(prefix, start, count, short), prefix, start);
    } else {
      LongRange(PrintRange(prefix, start, count, short), prefix, start, count);
    }
  }

  lemma RangeCharacters(prefix: char, start: nat, count: nat, short: bool)
    requires prefix == '-' || prefix == '+'
    ensures var range := PrintRange(prefix, start, count, short);
            range != "" && '@' !in range && NoWhite(range)
  {
    var range := PrintRange(prefix, start, count, short);
    forall c | c in range ensures c != '@' && !IsWhite(c) {
      assert c == prefix || c in Decimal(start) || c == ',' || c in Decimal(count);
    }
  }

  lemma TwoWords(a: string, b: string)
    requires a != "" && NoWhite(a) && b != "" && NoWhite(b)
    ensures Split(a + (" " + b)) == [a, b]
  {
    NextWord(a, b);
    LoneWord(b);
  }

  lemma WordsOfRanges(header: HunkHeader, form: Form)
    ensures Split(PrintRanges(header, form)) == [PrintOld(header, form), PrintNew(header, form)]
    ensures '@' !in PrintRanges(header, form)
  {
    RangeCharacters('-', header.oldStart, header.oldCount, form.shortOld);
    RangeCharacters('+', header.newStart, header.newCount, form.shortNew);
    TwoWords(PrintOld(header, form), PrintNew(header, form));
  }

  lemma BodyParts(body: string, ranges: string, rest: string)
    requires '@' !in ranges && body == ranges + " @@" + rest
    ensures FindMark(body) == |ranges| < |body|
    ensures body[..FindMark(body)] == ranges && body[FindMark(body) + 3..] == rest
  {
    FindMarkAfter(ranges, rest);
  }

  lemma HeaderParts(ranges: string, rest: string, line: string)
    requires '@' !in ranges && line == "@@ " + (ranges + " @@" + rest)
    ensures ParseHunkHeader(line) == ParseParts(Split(ranges), rest, line)
  {
    var body := ranges + " @@" + rest;
    assert line[3..] == body && line[..3] == "@@ ";
    BodyParts(body, ranges, rest);
    assert StripPrefix(line, "@@ ") == Some(body);
  }

  function ContextText(context: Option<string>): string {
    if context.Some? then " " + context.value else ""
  }

  lemma ContextParses(context: Option<string>)
    requires context.Some? ==> context.value != ""
    ensures var rest := StripPrefix(ContextText(context), " ").GetOr(ContextText(context));
            context == if rest == "" then None else Some(rest)
  {
    if context.Some? {
      assert ContextText(context)[1..] == context.value;
    }
  }

  lemma PartsParse(header: HunkHeader, form: Form, line: string)
    requires Printable(header)
    ensures ParseParts([PrintOld(header, form), PrintNew(header, form)], ContextText(header.context), line) == Ok(header)
  {
    RangeParses('-', header.oldStart, header.oldCount, form.shortOld);
    RangeParses('+', header.newStart, header.newCount, form.shortNew);
    ContextParses(header.context);
  }

  /** Parsing a printed header gives it back, whether counts of one are written or left out. */
  lemma HeaderRoundTrip(header: HunkHeader, form: Form)
    requires Printable(header)
    ensures ParseHunkHeader(PrintHeader(header, form)) == Ok(header)
  {
    WordsOfRanges(header, form);
    HeaderParts(PrintRanges(header, form), ContextText(header.context), PrintHeader(header, form));
    PartsParse(header, form, PrintHeader(header, form));
  }

  /* ---- Which lines are headers ---- */

  /** A number as Rust reads it, with a plus sign or without. */
  predicate IsNumber(s: string, n: nat) {
    var body := if s != "" && s[0] == '+' then s[1..] else s;
    body != "" && AllDigits(body) && DigitsValue(body) == n && n <= 0xFFFF_FFFF
  }

  /** A start and a count after the sign of the side; a count of one can be left out. */
  ghost predicate IsRange(raw: string, prefix: char, start: nat, count: nat) {
    && raw != "" && raw[0] == prefix
    && var value := raw[1..];
       if ',' in value
       then exists k: nat :: CommaAt(value, k) && IsNumber(value[..k], start) && IsNumber(value[k + 1..], count)
       else IsNumber(value, start) && count == 1
  }

  predicate CommaAt(s: string, k: nat) {
    k < |s| && s[k] == ',' && forall i | 0 <= i < k :: s[i] != ','
  }

  predicate MarkAt(s: string, k: nat) {
    k + 3 <= |s| && s[k] == ' ' && s[k + 1] == '@' && s[k + 2] == '@'
  }

  /** The ranges stand before the first mark, the context after it; one space before the context is no part of it. */
  ghost predicate Reads(body: string, k: nat, header: HunkHeader) {
    && MarkAt(body, k) && (forall j | 0 <= j < k :: !MarkAt(body, j))
    && var words, rest := Split(body[..k]), body[k + 3..];
       && |words| == 2
       && IsRange(words[0], '-', header.oldStart, header.oldCount)
       && IsRange(words[1], '+', header.newStart, header.newCount)
       && header.context == if rest == "" || rest == " " then None else Some(if rest[0] == ' ' then rest[1..] else rest)
  }

  lemma {:induction false} FindIs(s: string, c: char)
    ensures var k := Find(s, c); (forall i | 0 <= i < k :: s[i] != c) && (k < |s| ==> s[k] == c)
  {
    if s != "" && s[0] != c {
      FindIs(s[1..], c);
      assert forall i | 0 < i < |s| :: s[i] == s[1..][i - 1];
    }
  }

  lemma RangeReadWhen(raw: string, prefix: char, start: nat, count: nat)
    ensures ParseRange(raw, prefix) == Ok((start, count)) <==> IsRange(raw, prefix, start, count)
  {
    if raw != "" && raw[0] == prefix {
      var value := raw[1..];
      var comma := Find(value, ',');
      FindIs(value, ',');
      if comma < |value| {
        assert CommaAt(value, comma);
        forall k: nat | CommaAt(value, k) ensures k == comma {
        }
      } else {
        assert value[..comma] == value;
        DecimalParses(1);
      }
    }
  }

  lemma {:induction false} FindMarkIs(s: string)
    ensures var i := FindMark(s); (i < |s| ==> MarkAt(s, i)) && forall j | 0 <= j < i :: !MarkAt(s, j)
  {
    if |s| >= 3 && s[..3] != " @@" {
      FindMarkIs(s[1..]);
      assert s[..3] == [s[0], s[1], s[2]];
      assert forall j | 0 < j < |s| :: MarkAt(s, j) <==> MarkAt(s[1..], j - 1);
    } else if |s| >= 3 {
      assert s[..3][0] == s[0] && s[..3][1] == s[1] && s[..3][2] == s[2];
    }
  }

  lemma PartsReadWhen(words: seq<string>, rest: string, line: string, header: HunkHeader)
    ensures ParseParts(words, rest, line) == Ok(header) <==>
            && |words| == 2
            && IsRange(words[0], '-', header.oldStart, header.oldCount)
            && IsRange(words[1], '+', header.newStart, header.newCount)
            && header.context == if rest == "" || rest == " " then None else Some(if rest[0] == ' ' then rest[1..] else rest)
  {
    var context := StripPrefix(rest, " ").GetOr(rest);
    assert context == (if rest != "" && rest[0] == ' ' then rest[1..] else rest);
    if |words| == 2 {
      RangeReadWhen(words[0], '-', header.oldStart, header.oldCount);
      RangeReadWhen(words[1], '+', header.newStart, header.newCount);
    }
  }

  /** Which lines are read as which header, for all lines. */
  lemma HeaderReadWhen(line: string, header: HunkHeader)
    ensures ParseHunkHeader(line) == Ok(header) <==> "@@ " <= line && exists k: nat :: Reads(line[3..], k, header)
  {
    if "@@ " <= line {
      var body := line[3..];
      var mark := FindMark(body);
      FindMarkIs(body);
      if mark < |body| {
        PartsReadWhen(Split(body[..mark]), body[mark + 3..], line, header);
        assert ParseHunkHeader(line) == Ok(header) <==> Reads(body, mark, header);
      }
      forall k: nat | Reads(body, k, header) ensures k == mark {
      }
    }
  }
}
