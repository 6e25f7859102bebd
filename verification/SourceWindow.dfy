/** Streaming a bounded window of lines out of a source (`stream_source_window` in crates/cli/src/main.rs). Bytes outside
    the window are counted and hashed but not kept, and the reader may hand the source over in pieces of any size. */
module SourceWindow {
  import opened Wrappers

  const NUL: Byte := 0
  const NEWLINE: Byte := 10
  const MAX_WINDOW_BYTES := 2 * 1024 * 1024

  /** A hash is known only to be injective. */
  datatype Digest = Digest(preimage: seq<Byte>)

  /** What one `fill_buf` gives; an empty chunk, or the end of the list, is the end of the stream. */
  datatype Fill = Chunk(bytes: seq<Byte>) | Failure

  datatype WindowError = Cancelled | TooLarge | Binary | Io

  datatype Window = Window(totalLines: nat, byteLen: nat, digest: Digest, bytes: seq<Byte>, endOfFile: bool)

  datatype Query = Query(startLine: nat, lineCount: nat) {
    function First(): nat { if startLine == 0 then 0 else startLine - 1 }
    function Last(): nat { First() + lineCount }
    function RequestedLast(): nat { if startLine + lineCount == 0 then 0 else startLine + lineCount - 1 }
  }

  /* ---- Lines ---- */

  function Init(content: seq<Byte>): seq<Byte>
    requires content != []
  {
    content[..|content| - 1]
  }

  function Final(content: seq<Byte>): Byte
    requires content != []
  {
    content[|content| - 1]
  }

  predicate OpenLine(content: seq<Byte>) {
    content != [] && Final(content) != NEWLINE
  }

  /** The lines of a source, each with its terminator; the last one may lack it. */
  function Lines(content: seq<Byte>): (lines: seq<seq<Byte>>)
    ensures OpenLine(content) ==> lines != []
  {
    if content == [] then []
    else
      var before := Lines(Init(content));
      if OpenLine(Init(content)) then before[..|before| - 1] + [before[|before| - 1] + [Final(content)]]
      else before + [[Final(content)]]
  }

  function Flatten(lines: seq<seq<Byte>>): seq<Byte> {
    if lines == [] then [] else Flatten(lines[..|lines| - 1]) + lines[|lines| - 1]
  }

  function Min(a: nat, b: nat): nat {
    if a < b then a else b
  }

  /** The bytes of the lines numbered `first` to `last - 1`, counted from zero. */
  function LineRange(content: seq<Byte>, first: nat, last: nat): seq<Byte>
    requires first <= last
  {
    Flatten(Lines(content)[Min(first, |Lines(content)|)..Min(last, |Lines(content)|)])
  }

  function Newlines(content: seq<Byte>): nat {
    if content == [] then 0 else Newlines(Init(content)) + if Final(content) == NEWLINE then 1 else 0
  }

  /** The bytes whose line number, by counting newlines before them, is in the window. */
  function Selected(content: seq<Byte>, first: nat, last: nat): seq<Byte> {
    if content == [] then []
    else Selected(Init(content), first, last) + (if first <= Newlines(Init(content)) < last then [Final(content)] else [])
  }

  /* ---- What the scan reports ---- */

  /** The first byte that stops the scan: a NUL, or one selected byte too many. */
  function Fault(content: seq<Byte>, q: Query): Option<WindowError> {
    if content == [] then None
    else if Fault(Init(content), q).Some? then Fault(Init(content), q)
    else if Final(content) == NUL then Some(Binary)
    else if |Selected(content, q.First(), q.Last())| > MAX_WINDOW_BYTES then Some(TooLarge)
    else None
  }

  function Finish(content: seq<Byte>, q: Query, utf8: seq<Byte> -> bool): Result<Window, WindowError> {
    var bytes := Selected(content, q.First(), q.Last());
    var totalLines := Min(Newlines(content) + (if OpenLine(content) then 1 else 0), U32_MAX);
    if !utf8(bytes) then Err(Binary)
    else Ok(Window(totalLines, |content|, Digest(content), bytes, q.RequestedLast() >= totalLines))
  }

  /** The result for a source that is read undisturbed. */
  function WindowOf(content: seq<Byte>, q: Query, utf8: seq<Byte> -> bool): Result<Window, WindowError> {
    match Fault(content, q)
    case Some(e) => Err(e)
    case None => Finish(content, q, utf8)
  }

  /** The result of a stream whose first bytes `seen` are behind it; `cancelled(k)` is what the k-th poll of the flag sees. */
  function Outcome(fills: seq<Fill>, q: Query, cancelled: nat -> bool, utf8: seq<Byte> -> bool, seen: seq<Byte>, poll: nat)
    : Result<Window, WindowError>
    decreases |fills|
  {
    if cancelled(poll) then Err(Cancelled)
    else if fills == [] || fills[0] == Chunk([]) then
      if cancelled(poll + 1) then Err(Cancelled) else Finish(seen, q, utf8)
    else if fills[0].Failure? then Err(Io)
    else
      match Fault(seen + fills[0].bytes, q)
      case Some(e) => Err(e)
      case None => Outcome(fills[1..], q, cancelled, utf8, seen + fills[0].bytes, poll + 1)
  }

  lemma {:induction false} FaultStays(a: seq<Byte>, b: seq<Byte>, q: Query)
    requires Fault(a, q).Some?
    ensures Fault(a + b, q) == Fault(a, q)
    decreases |b|
  {
    if b == [] {
      assert a + b == a;
    } else {
      FaultStays(a, Init(b), q);
      assert Init(a + b) == a + Init(b);
    }
  }

  /** What one more byte changes. */
  lemma ScanByte(seen: seq<Byte>, byte: Byte, q: Query)
    requires Fault(seen, q).None?
    ensures Newlines(seen + [byte]) == Newlines(seen) + (if byte == NEWLINE then 1 else 0)
    ensures OpenLine(seen + [byte]) <==> byte != NEWLINE
    ensures Selected(seen + [byte], q.First(), q.Last()) ==
            Selected(seen, q.First(), q.Last()) + (if q.First() <= Newlines(seen) < q.Last() then [byte] else [])
    ensures Fault(seen + [byte], q) ==
            if byte == NUL then Some(Binary)
            else if q.First() <= Newlines(seen) < q.Last() &&
                |Selected(seen, q.First(), q.Last())| == MAX_WINDOW_BYTES then Some(TooLarge)
            else None
  {
    var more := seen + [byte];
    assert Init(more) == seen && Final(more) == byte;
    NoFaultFits(seen, q);
  }

  lemma {:induction false} NoFaultFits(content: seq<Byte>, q: Query)
    requires Fault(content, q).None?
    ensures |Selected(content, q.First(), q.Last())| <= MAX_WINDOW_BYTES
  {
  }

  /** The scan's variables after the bytes `seen`. */
  predicate Counted(seen: seq<Byte>, q: Query, currentLine: nat, currentHasBytes: bool, selected: seq<Byte>) {
    && Fault(seen, q).None?
    && currentLine == Newlines(seen) && currentHasBytes == OpenLine(seen)
    && selected == Selected(seen, q.First(), q.Last())
  }

  /** One buffer of the scan, byte by byte. */
  method ScanBuffer(buffer: seq<Byte>, q: Query, ghost seen: seq<Byte>, line: nat, hasBytes: bool, bytes: seq<Byte>)
    returns (fault: Option<WindowError>, currentLine: nat, currentHasBytes: bool, selected: seq<Byte>)
    requires Counted(seen, q, line, hasBytes, bytes)
    ensures fault == Fault(seen + buffer, q)
    ensures fault.None? ==> Counted(seen + buffer, q, currentLine, currentHasBytes, selected)
  {
    fault, currentLine, currentHasBytes, selected := None, line, hasBytes, bytes;
    ghost var now := seen;
    assert seen + buffer[..0] == seen;
    for i := 0 to |buffer|
      invariant now == seen + buffer[..i]
      invariant Counted(now, q, currentLine, currentHasBytes, selected)
    {
      var byte := buffer[i];
      ScanByte(now, byte, q);
      now := now + [byte];
      assert seen + buffer == now + buffer[i + 1..];
      if byte == NUL {
        FaultStays(now, buffer[i + 1..], q);
        return Some(Binary), currentLine, currentHasBytes, selected;
      }
      if q.First() <= currentLine < q.Last() {
        if |selected| + 1 > MAX_WINDOW_BYTES {
          FaultStays(now, buffer[i + 1..], q);
          return Some(TooLarge), currentLine, currentHasBytes, selected;
        }
        selected := selected + [byte];
      }
      currentHasBytes := true;
      if byte == NEWLINE {
        currentLine := currentLine + 1;
        currentHasBytes := false;
      }
    }
    assert now == seen + buffer;
  }

  method StreamSourceWindow(fills: seq<Fill>, q: Query, cancelled: nat -> bool, utf8: seq<Byte> -> bool)
    returns (r: Result<Window, WindowError>)
    ensures r == Outcome(fills, q, cancelled, utf8, [], 0)
  {
    var currentLine := 0;
    var currentHasBytes := false;
    var selected: seq<Byte>, hashed: seq<Byte> := [], [];
    var totalBytes, poll := 0, 0;
    while true
      invariant poll <= |fills| && totalBytes == |hashed|
      invariant Counted(hashed, q, currentLine, currentHasBytes, selected)
      invariant Outcome(fills, q, cancelled, utf8, [], 0) == Outcome(fills[poll..], q, cancelled, utf8, hashed, poll)
      decreases |fills| - poll
    {
      if cancelled(poll) {
        return Err(Cancelled);
      }
      if poll == |fills| {
        break;
      }
      if fills[poll].Failure? {
        return Err(Io);
      }
      var buffer := fills[poll].bytes;
      if buffer == [] {
        break;
      }
      assert fills[poll..][1..] == fills[poll + 1..];
      var fault;
      fault, currentLine, currentHasBytes, selected := ScanBuffer(buffer, q, hashed, currentLine, currentHasBytes, selected);
      hashed := hashed + buffer;
      totalBytes := totalBytes + |buffer|;
      if fault.Some? {
        return Err(fault.value);
      }
      poll := poll + 1;
    }
    if cancelled(poll + 1) {
      return Err(Cancelled);
    }
    if !utf8(selected) {
      return Err(Binary);
    }
    var totalLines := Min(currentLine + (if currentHasBytes then 1 else 0), U32_MAX);
    return Ok(Window(totalLines, totalBytes, Digest(hashed), selected, q.RequestedLast() >= totalLines));
  }

  /* ---- Chunks do not matter ---- */

  /** The bytes a stream delivers before it ends or fails. */
  function Streamed(fills: seq<Fill>): seq<Byte> {
    if fills == [] || fills[0].Failure? || fills[0].bytes == [] then [] else fills[0].bytes + Streamed(fills[1..])
  }

  predicate Delivered(fills: seq<Fill>) {
    fills == [] || (fills[0].Chunk? && (fills[0].bytes == [] || Delivered(fills[1..])))
  }

  /** A finished scan has taken its first chunk in without a fault. */
  lemma FinishedStep(fills: seq<Fill>, q: Query, cancelled: nat -> bool, utf8: seq<Byte> -> bool, seen: seq<Byte>, poll: nat)
    requires Outcome(fills, q, cancelled, utf8, seen, poll).Ok? && fills != [] && fills[0] != Chunk([])
    ensures fills[0].Chunk? && fills[0].bytes != [] && Fault(seen + fills[0].bytes, q).None?
    ensures Outcome(fills[1..], q, cancelled, utf8, seen + fills[0].bytes, poll + 1) == Outcome(fills, q, cancelled,
            utf8, seen, poll)
  {
  }

  lemma StreamedStep(fills: seq<Fill>, seen: seq<Byte>)
    requires fills != [] && fills[0].Chunk? && fills[0].bytes != []
    ensures (seen + fills[0].bytes) + Streamed(fills[1..]) == seen + Streamed(fills)
    ensures Delivered(fills) == Delivered(fills[1..])
  {
  }

  /** A finished window is the window of exactly the bytes streamed; no error of the source can turn into a window. */
  lemma {:induction false} FinishedStream(fills: seq<Fill>, q: Query, cancelled: nat -> bool, utf8: seq<Byte> -> bool,
                                          seen: seq<Byte>, poll: nat)
    requires Fault(seen, q).None? && Outcome(fills, q, cancelled, utf8, seen, poll).Ok?
    ensures WindowOf(seen + Streamed(fills), q, utf8) == Outcome(fills, q, cancelled, utf8, seen, poll)
    ensures Delivered(fills)
    decreases |fills|
  {
    if fills == [] || fills[0] == Chunk([]) {
      assert seen + [] == seen;
    } else {
      FinishedStep(fills, q, cancelled, utf8, seen, poll);
      StreamedStep(fills, seen);
      FinishedStream(fills[1..], q, cancelled, utf8, seen + fills[0].bytes, poll + 1);
    }
  }

  /** However the reader cuts the source into chunks, an undisturbed scan computes the same. */
  lemma {:induction false} ChunksDoNotMatter(fills: seq<Fill>, q: Query, cancelled: nat -> bool, utf8: seq<Byte> -> bool,
                                             seen: seq<Byte>, poll: nat)
    requires Delivered(fills) && Fault(seen, q).None? && forall k :: !cancelled(k)
    ensures Outcome(fills, q, cancelled, utf8, seen, poll) == WindowOf(seen + Streamed(fills), q, utf8)
    decreases |fills|
  {
    if fills == [] || fills[0].bytes == [] {
      assert seen + [] == seen;
    } else {
      var more := seen + fills[0].bytes;
      StreamedStep(fills, seen);
      if Fault(more, q).Some? {
        FaultStays(more, Streamed(fills[1..]), q);
      } else {
        ChunksDoNotMatter(fills[1..], q, cancelled, utf8, more, poll + 1);
      }
    }
  }

  /* ---- A window is a range of lines ---- */

  lemma {:induction false} CountLines(content: seq<Byte>)
    ensures |Lines(content)| == Newlines(content) + if OpenLine(content) then 1 else 0
  {
    if content != [] {
      CountLines(Init(content));
    }
  }

  lemma FlattenSnoc(lines: seq<seq<Byte>>, line: seq<Byte>)
    ensures Flatten(lines + [line]) == Flatten(lines) + line
  {
    assert (lines + [line])[..|lines|] == lines;
  }

  lemma {:induction false} FlattenConcat(a: seq<seq<Byte>>, b: seq<seq<Byte>>)
    ensures Flatten(a + b) == Flatten(a) + Flatten(b)
  {
    if b == [] {
      assert a + b == a;
    } else {
      var rest, line := b[..|b| - 1], b[|b| - 1];
      FlattenConcat(a, rest);
      assert b == rest + [line] && a + b == (a + rest) + [line];
      FlattenSnoc(a + rest, line);
    }
  }

  lemma GrowLine(head: seq<seq<Byte>>, open: seq<Byte>, byte: Byte)
    ensures Flatten(head + [open + [byte]]) == Flatten(head + [open]) + [byte]
  {
    FlattenSnoc(head, open);
    FlattenSnoc(head, open + [byte]);
    assert Flatten(head) + (open + [byte]) == Flatten(head) + open + [byte];
  }

  /** One more byte either lengthens the last line or begins another one. */
  lemma FlattenLines(content: seq<Byte>)
    requires content != []
    ensures Flatten(Lines(content)) == Flatten(Lines(Init(content))) + [Final(content)]
  {
    var before, byte := Lines(Init(content)), Final(content);
    if OpenLine(Init(content)) {
      var head, open := before[..|before| - 1], before[|before| - 1];
      assert before == head + [open];
      GrowLine(head, open, byte);
    } else {
      FlattenSnoc(before, [byte]);
    }
  }

  lemma InitFinal(content: seq<Byte>)
    requires content != []
    ensures content == Init(content) + [Final(content)]
  {
  }

  /** The lines of a source put one after the other are the source. */
  lemma {:induction false} LinesFlatten(content: seq<Byte>)
    ensures Flatten(Lines(content)) == content
  {
    if content != [] {
      LinesFlatten(Init(content));
      FlattenLines(content);
      InitFinal(content);
    }
  }

  function Part(lines: seq<seq<Byte>>, first: nat, last: nat): seq<seq<Byte>>
    requires first <= last
  {
    lines[Min(first, |lines|)..Min(last, |lines|)]
  }

  lemma PartSnoc(lines: seq<seq<Byte>>, line: seq<Byte>, first: nat, last: nat)
    requires first <= last
    ensures Part(lines + [line], first, last) ==
            if first <= |lines| < last then Part(lines, first, last) + [line] else Part(lines, first, last)
  {
  }

  /** Counting newlines selects exactly the bytes of the lines asked for. */
  lemma {:induction false} SelectedIsLineRange(content: seq<Byte>, first: nat, last: nat)
    requires first <= last
    ensures Selected(content, first, last) == LineRange(content, first, last)
  {
    if content != [] {
      var init, byte := Init(content), Final(content);
      var before := Lines(init);
      SelectedIsLineRange(init, first, last);
      CountLines(init);
      if OpenLine(init) {
        var head, open := before[..|before| - 1], before[|before| - 1];
        assert before == head + [open];
        PartSnoc(head, open, first, last);
        PartSnoc(head, open + [byte], first, last);
        GrowLine(Part(head, first, last), open, byte);
      } else {
        PartSnoc(before, [byte], first, last);
        FlattenSnoc(Part(before, first, last), [byte]);
      }
    }
  }

  lemma {:induction false} FaultFree(content: seq<Byte>, q: Query)
    ensures Fault(content, q).None? <==> 0 !in content && |Selected(content, q.First(), q.Last())| <= 2_097_152
  {
    if content != [] {
      FaultFree(Init(content), q);
      assert content == Init(content) + [Final(content)];
    }
  }

  /** The first NUL of the source is at `i`, and the window has not passed two megabytes before it. */
  predicate NulAt(content: seq<Byte>, q: Query, i: nat) {
    && i < |content| && content[i] == 0 && 0 !in content[..i]
    && |Selected(content[..i], q.First(), q.Last())| <= 2_097_152
  }

  lemma NulAtInit(content: seq<Byte>, q: Query, i: nat)
    requires content != [] && i < |content|
    ensures i < |content| - 1 ==> (NulAt(content, q, i) <==> NulAt(Init(content), q, i))
    ensures i == |content| - 1 ==> (NulAt(content, q, i) <==> Final(content) == NUL && Fault(Init(content), q).None?)
  {
    if i < |content| - 1 {
      assert Init(content)[..i] == content[..i] && Init(content)[i] == content[i];
    } else {
      assert content[..i] == Init(content);
      FaultFree(Init(content), q);
    }
  }

  /** A source is binary exactly when a NUL comes before the window overflows. */
  lemma {:induction false} BinaryWhen(content: seq<Byte>, q: Query)
    ensures Fault(content, q) == Some(Binary) <==> exists i: nat :: NulAt(content, q, i)
  {
    if content != [] {
      BinaryWhen(Init(content), q);
      forall i: nat | i < |content|
        ensures i < |content| - 1 ==> (NulAt(content, q, i) <==> NulAt(Init(content), q, i))
        ensures i == |content| - 1 ==> (NulAt(content, q, i) <==> Final(content) == NUL && Fault(Init(content), q).None?)
      {
        NulAtInit(content, q, i);
      }
      assert NulAt(content, q, |content| - 1) <==> Final(content) == NUL && Fault(Init(content), q).None?;
    }
  }

  /** A line holds no newline but at its end, and every line but the last one does end with one. */
  predicate IsLine(line: seq<Byte>, isLast: bool) {
    line != [] && 10 !in line[..|line| - 1] && (isLast || line[|line| - 1] == 10)
  }

  lemma OpenGrows(open: seq<Byte>, byte: Byte)
    requires IsLine(open, true) && open[|open| - 1] != 10
    ensures IsLine(open + [byte], true) && (byte == 10 ==> IsLine(open + [byte], false))
  {
    assert (open + [byte])[..|open|] == open == open[..|open| - 1] + [open[|open| - 1]];
  }

  /** The lines of a source are told by their newlines. */
  lemma {:induction false} LinesAre(content: seq<Byte>)
    ensures Flatten(Lines(content)) == content
    ensures forall k | 0 <= k < |Lines(content)| :: IsLine(Lines(content)[k], k == |Lines(content)| - 1)
  {
    LinesFlatten(content);
    LinesEnd(content);
  }

  lemma {:induction false} LinesEnd(content: seq<Byte>)
    ensures forall k | 0 <= k < |Lines(content)| :: IsLine(Lines(content)[k], k == |Lines(content)| - 1)
    ensures content != [] ==> Lines(content) != [] &&
                              (forall line | line == Lines(content)[|Lines(content)| - 1] && line != [] ::
                                 line[|line| - 1] == Final(content))
  {
    if content != [] {
      var before, lines := Lines(Init(content)), Lines(content);
      LinesEnd(Init(content));
      if OpenLine(Init(content)) {
        OpenGrows(before[|before| - 1], Final(content));
      }
      forall k | 0 <= k < |lines| ensures IsLine(lines[k], k == |lines| - 1) {
        if k < |before| {
          assert IsLine(before[k], k == |before| - 1);
        }
      }
    }
  }

  /** What a scan without a fault ends with, told from the lines. */
  lemma FinishMeans(content: seq<Byte>, q: Query, utf8: seq<Byte> -> bool, bytes: seq<Byte>, total: nat)
    requires bytes == LineRange(content, q.First(), q.Last())
    requires total == if |Lines(content)| > 0xFFFF_FFFF then 0xFFFF_FFFF else |Lines(content)|
    ensures Finish(content, q, utf8) ==
            if !utf8(bytes) then Err(Binary)
            else Ok(Window(total, |content|, Digest(content), bytes, total == 0 || q.startLine + q.lineCount > total))
  {
    SelectedIsLineRange(content, q.First(), q.Last());
    CountLines(content);
    EndOfFileWhen(q, total);
    assert Selected(content, q.First(), q.Last()) == bytes;
    assert Min(Newlines(content) + (if OpenLine(content) then 1 else 0), U32_MAX) == total;
  }

  lemma EndOfFileWhen(q: Query, total: nat)
    ensures (q.RequestedLast() >= total) == (total == 0 || q.startLine + q.lineCount > total)
  {
  }

  /** When a window is served, and what it then holds: the lines asked for, counted from one, with their terminators, and
      the measures of the whole source. A NUL, text that is not UTF-8 and more than two megabytes are errors. */
  lemma WindowMeans(content: seq<Byte>, q: Query, utf8: seq<Byte> -> bool)
    ensures var first := if q.startLine == 0 then 0 else q.startLine - 1;
            var bytes := LineRange(content, first, first + q.lineCount);
            var total := if |Lines(content)| > 0xFFFF_FFFF then 0xFFFF_FFFF else |Lines(content)|;
            WindowOf(content, q, utf8) ==
            if 0 in content || |bytes| > 2_097_152
            then Err(if exists i: nat :: NulAt(content, q, i) then Binary else TooLarge)
            else if !utf8(bytes) then Err(Binary)
            else Ok(Window(total, |content|, Digest(content), bytes, total == 0 || q.startLine + q.lineCount > total))
  {
    SelectedIsLineRange(content, q.First(), q.Last());
    FaultFree(content, q);
    OnlyTwoFaults(content, q);
    BinaryWhen(content, q);
    if Fault(content, q).None? {
      FinishMeans(content, q, utf8, LineRange(content, q.First(), q.Last()),
                  if |Lines(content)| > 0xFFFF_FFFF then 0xFFFF_FFFF else |Lines(content)|);
    }
  }

  lemma {:induction false} OnlyTwoFaults(content: seq<Byte>, q: Query)
    ensures Fault(content, q) in {None, Some(Binary), Some(TooLarge)}
  {
    if content != [] {
      OnlyTwoFaults(Init(content), q);
    }
  }

  /* ---- Windows put together ---- */

  lemma RangesConcat(content: seq<Byte>, a: nat, b: nat, c: nat)
    requires a <= b <= c
    ensures LineRange(content, a, b) + LineRange(content, b, c) == LineRange(content, a, c)
  {
    var lines := Lines(content);
    FlattenConcat(Part(lines, a, b), Part(lines, b, c));
    assert Part(lines, a, b) + Part(lines, b, c) == Part(lines, a, c);
  }

  lemma {:induction false} LinesAreNotEmpty(content: seq<Byte>)
    ensures forall k | 0 <= k < |Lines(content)| :: Lines(content)[k] != []
  {
    if content != [] {
      LinesAreNotEmpty(Init(content));
    }
  }

  lemma {:induction false} FlattenLength(lines: seq<seq<Byte>>)
    requires forall k | 0 <= k < |lines| :: lines[k] != []
    ensures |Flatten(lines)| >= |lines|
  {
    if lines != [] {
      FlattenLength(lines[..|lines| - 1]);
    }
  }

  lemma SplitLengths(lines: seq<seq<Byte>>, k: nat)
    requires k <= |lines| && forall i | 0 <= i < |lines| :: lines[i] != []
    ensures Flatten(lines) == Flatten(lines[..k]) + Flatten(lines[k..])
    ensures |Flatten(lines[..k])| >= k && |Flatten(lines[k..])| >= |lines| - k
  {
    FlattenConcat(lines[..k], lines[k..]);
    assert lines == lines[..k] + lines[k..];
    FlattenLength(lines[..k]);
    FlattenLength(lines[k..]);
  }

  /** The first `n` lines are the whole source exactly when there are no more. */
  lemma WholeRange(content: seq<Byte>, n: nat)
    ensures LineRange(content, 0, n) == content <==> |Lines(content)| <= n
    ensures Min(n, |Lines(content)|) <= |LineRange(content, 0, n)| <= |content|
  {
    var lines := Lines(content);
    var k := Min(n, |lines|);
    LinesFlatten(content);
    LinesAreNotEmpty(content);
    SplitLengths(lines, k);
    assert lines[0..k] == lines[..k];
    if k == |lines| {
      assert lines[..k] == lines;
    }
  }

  /** Windows of one source that begin at line 1 and continue where the one before stopped. */
  predicate Tiled(content: seq<Byte>, queries: seq<Query>, windows: seq<Window>, utf8: seq<Byte> -> bool) {
    && |queries| == |windows|
    && (forall i | 0 <= i < |queries| :: WindowOf(content, queries[i], utf8) == Ok(windows[i]))
    && (queries != [] ==> queries[0].startLine == 1)
    && (forall i | 0 < i < |queries| :: queries[i].startLine == queries[i - 1].startLine + queries[i - 1].lineCount)
  }

  function Joined(windows: seq<Window>): seq<Byte> {
    if windows == [] then [] else Joined(windows[..|windows| - 1]) + windows[|windows| - 1].bytes
  }

  lemma TilesButLast(content: seq<Byte>, queries: seq<Query>, windows: seq<Window>, utf8: seq<Byte> -> bool)
    requires Tiled(content, queries, windows, utf8) && queries != []
    ensures Tiled(content, queries[..|queries| - 1], windows[..|windows| - 1], utf8)
  {
  }

  lemma ServedBytes(content: seq<Byte>, q: Query, w: Window, utf8: seq<Byte> -> bool)
    requires WindowOf(content, q, utf8) == Ok(w)
    ensures w.bytes == LineRange(content, q.First(), q.Last())
    ensures w.endOfFile <==> q.RequestedLast() >= Min(|Lines(content)|, U32_MAX)
  {
    WindowMeans(content, q, utf8);
  }

  lemma NextTile(p: Query, q: Query)
    requires p.startLine >= 1 && q.startLine == p.startLine + p.lineCount
    ensures q.startLine >= 1 && q.First() == p.Last()
  {
  }

  lemma {:induction false} TilesJoin(content: seq<Byte>, queries: seq<Query>, windows: seq<Window>, utf8: seq<Byte> -> bool)
    requires Tiled(content, queries, windows, utf8) && queries != []
    ensures queries[|queries| - 1].startLine >= 1
    ensures Joined(windows) == LineRange(content, 0, queries[|queries| - 1].Last())
  {
    var n := |queries| - 1;
    var q := queries[n];
    ServedBytes(content, q, windows[n], utf8);
    if n == 0 {
      assert Joined(windows[..0]) == [];
    } else {
      TilesButLast(content, queries, windows, utf8);
      TilesJoin(content, queries[..n], windows[..n], utf8);
      NextTile(queries[n - 1], q);
      RangesConcat(content, 0, q.First(), q.Last());
    }
  }

  /** Adjacent windows from line 1 until one says `end_of_file` are the whole source, exactly when the last of them reached
      its last line. That is so whenever the lines can be counted in 32 bits. */
  lemma TilingIsWhole(content: seq<Byte>, queries: seq<Query>, windows: seq<Window>, utf8: seq<Byte> -> bool)
    requires Tiled(content, queries, windows, utf8) && queries != [] && windows[|windows| - 1].endOfFile
    ensures Joined(windows) == content <==> |Lines(content)| <= queries[|queries| - 1].Last()
    ensures |Lines(content)| <= 0xFFFF_FFFF ==> Joined(windows) == content
  {
    var n := |queries| - 1;
    TilesJoin(content, queries, windows, utf8);
    ServedBytes(content, queries[n], windows[n], utf8);
    WholeRange(content, queries[n].Last());
  }

  function Blank(n: nat): (content: seq<Byte>)
    ensures |content| == n && forall i | 0 <= i < n :: content[i] == NEWLINE
  {
    seq(n, _ => NEWLINE)
  }

  lemma {:induction false} BlankLines(n: nat, first: nat, last: nat)
    requires first <= last
    ensures Newlines(Blank(n)) == n && !OpenLine(Blank(n))
    ensures |Selected(Blank(n), first, last)| == Min(n, last) - Min(n, first)
  {
    if n > 0 {
      BlankLines(n - 1, first, last);
      assert Init(Blank(n)) == Blank(n - 1);
    }
  }

  /** With 2^32 lines the count saturates, and a window one line short of the end already says `end_of_file`. */
  lemma HugeSourceEndsEarly(utf8: seq<Byte> -> bool)
    requires forall bytes :: utf8(bytes)
    ensures var content, q := Blank(U32_MAX + 1), Query(U32_MAX, 1);
            var r := WindowOf(content, q, utf8);
            r.Ok? && r.value.endOfFile && q.Last() < |Lines(content)|
  {
    var content, q := Blank(U32_MAX + 1), Query(U32_MAX, 1);
    BlankLines(U32_MAX + 1, q.First(), q.Last());
    CountLines(content);
    SelectedIsLineRange(content, q.First(), q.Last());
    WindowMeans(content, q, utf8);
  }
}
