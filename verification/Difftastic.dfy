/** Normalising the output of the structural diff tool (crates/difftastic/src/lib.rs): sparse rows are put in the order of
    the complete alignment, and every span is checked against the source it claims to mark. JSON decoding is done before. */
module Difftastic {
  import opened Wrappers
  import opened Ordering
  import opened Words
  import HighlightSpans

  datatype RawChange = RawChange(start: nat, end: nat, content: seq<Byte>, highlight: string)

  datatype RawCell = RawCell(line: nat, changes: seq<RawChange>)

  datatype RawRow = RawRow(lhs: Option<RawCell>, rhs: Option<RawCell>)

  /** Line numbers of the two sides; from zero in the tool's output, from one in the normalised form. */
  type Pair = (Option<nat>, Option<nat>)

  datatype RawFile = RawFile(alignedLines: seq<Pair>, chunks: seq<seq<RawRow>>, language: string, status: string)

  datatype RawRoot = One(file: RawFile) | Many(files: seq<RawFile>)

  datatype Span = Span(start: nat, end: nat, highlight: string)

  datatype Cell = Cell(line: nat, text: seq<Byte>, spans: seq<Span>)

  datatype Row = Row(base: Option<Cell>, current: Option<Cell>)

  datatype Status = Unchanged | Changed | Created | Deleted

  datatype Presentation = Presentation(language: string, status: Status, lineOriented: bool, alignment: seq<Pair>,
      chunks: seq<seq<Row>>)

  datatype SchemaError = WrongCount | UnknownStatus | OutsideSource | LineOverflow | EmptyRow | DuplicateRow |
                         AbsentRow | InvalidRange | ContentMismatch | OverlappingSpans

  /** `collect` into a `Result`: all results, or the first error. */
  function Collect<A, B>(items: seq<A>, f: A -> Result<B, SchemaError>): Result<seq<B>, SchemaError> {
    if items == [] then Ok([])
    else
      match f(items[0])
      case Err(e) => Err(e)
      case Ok(first) =>
        match Collect(items[1..], f)
        case Err(e) => Err(e)
        case Ok(rest) => Ok([first] + rest)
  }

  /** The first `k` items have been collected. */
  ghost predicate CollectedTo<A, B>(items: seq<A>, f: A -> Result<B, SchemaError>, k: nat, done: seq<B>) {
    && k <= |items|
    && Collect(items, f) == match Collect(items[k..], f) case Ok(rest) => Ok(done + rest) case Err(e) => Err(e)
  }

  lemma CollectedMore<A, B>(items: seq<A>, f: A -> Result<B, SchemaError>, k: nat, done: seq<B>)
    requires k < |items| && CollectedTo(items, f, k, done)
    ensures match f(items[k])
            case Ok(next) => CollectedTo(items, f, k + 1, done + [next])
            case Err(e) => Collect(items, f) == Err(e)
  {
    assert items[k..][1..] == items[k + 1..];
    if f(items[k]).Ok? && Collect(items[k + 1..], f).Ok? {
      assert done + ([f(items[k]).value] + Collect(items[k + 1..], f).value) ==
             done + [f(items[k]).value] + Collect(items[k + 1..], f).value;
    }
  }

  lemma NothingCollected<A, B>(items: seq<A>, f: A -> Result<B, SchemaError>)
    ensures CollectedTo(items, f, 0, [])
  {
    assert items[0..] == items;
    if Collect(items, f).Ok? {
      assert [] + Collect(items, f).value == Collect(items, f).value;
    }
  }

  lemma AllCollected<A, B>(items: seq<A>, f: A -> Result<B, SchemaError>, done: seq<B>)
    requires CollectedTo(items, f, |items|, done)
    ensures Collect(items, f) == Ok(done)
  {
    assert done + [] == done;
  }

  lemma {:induction false} CollectedAt<A, B>(items: seq<A>, f: A -> Result<B, SchemaError>)
    ensures Collect(items, f).Ok? <==> forall k | 0 <= k < |items| :: f(items[k]).Ok?
    ensures Collect(items, f).Ok? ==> |Collect(items, f).value| == |items|
    ensures Collect(items, f).Ok? ==> forall k | 0 <= k < |items| :: f(items[k]) == Ok(Collect(items, f).value[k])
  {
    if items != [] {
      CollectedAt(items[1..], f);
      assert forall k | 0 < k < |items| :: items[1..][k - 1] == items[k];
      if f(items[0]).Ok? {
        assert forall k | 0 <= k < |items[1..]| :: items[1..][k] == items[k + 1];
      }
    }
  }

  /* ---- Source lines ---- */

  const NEWLINE: Byte := 10

  /** The pieces between newlines; there is one more piece than there are newlines. */
  function SourceLines(source: seq<Byte>): (lines: seq<seq<Byte>>)
    ensures lines != []
  {
    if source == [] then [[]]
    else
      var before := SourceLines(source[..|source| - 1]);
      var byte := source[|source| - 1];
      if byte == NEWLINE then before + [[]]
      else before[..|before| - 1] + [before[|before| - 1] + [byte]]
  }

  /** `lines()`: the same pieces without an empty last one. */
  function TextLines(source: seq<Byte>): seq<seq<Byte>> {
    var lines := SourceLines(source);
    if lines[|lines| - 1] == [] then lines[..|lines| - 1] else lines
  }

  function ValidateLine(raw: Option<nat>, lines: seq<seq<Byte>>): Result<Option<nat>, SchemaError> {
    match raw
    case None => Ok(None)
    case Some(line) =>
      if line >= |lines| then Err(OutsideSource)
      else if line + 1 > U32_MAX then Err(LineOverflow)
      else Ok(Some(line + 1))
  }

  predicate LineExists(raw: Option<nat>, lines: seq<seq<Byte>>) {
    raw.Some? ==> raw.value < |lines| && raw.value < 0xFFFF_FFFF
  }

  /* ---- One cell ---- */

  function CheckChange(change: RawChange, source: seq<Byte>): Result<Span, SchemaError> {
    if change.start >= change.end || change.end > |source| || !HighlightSpans.IsCharBoundary(source, change.start) ||
       !HighlightSpans.IsCharBoundary(source, change.end)
    then Err(InvalidRange)
    else if source[change.start..change.end] != change.content then Err(ContentMismatch)
    else Ok(Span(change.start, change.end, change.highlight))
  }

  function Checker(source: seq<Byte>): RawChange -> Result<Span, SchemaError> {
    change => CheckChange(change, source)
  }

  predicate SpanLeq(a: Span, b: Span) {
    a.start < b.start || (a.start == b.start && a.end <= b.end)
  }

  lemma SpanLeqOrders()
    ensures TotalPreorder(SpanLeq)
  {
  }

  /** Each span ends before the next begins. */
  predicate Disjoint(spans: seq<Span>) {
    |spans| < 2 || (spans[0].end <= spans[1].start && Disjoint(spans[1..]))
  }

  function NormalCell(raw: Option<RawCell>, lines: seq<seq<Byte>>): Result<Option<Cell>, SchemaError> {
    match raw
    case None => Ok(None)
    case Some(cell) =>
      match ValidateLine(Some(cell.line), lines)
      case Err(e) => Err(e)
      case Ok(line) =>
        var source := lines[cell.line];
        match Collect(cell.changes, Checker(source))
        case Err(e) => Err(e)
        case Ok(spans) =>
          var sorted := SortBy(spans, SpanLeq);
          if Disjoint(sorted) then Ok(Some(Cell(line.GetOr(0), source, sorted))) else Err(OverlappingSpans)
  }

  method NormalizeChanges(changes: seq<RawChange>, source: seq<Byte>) returns (r: Result<seq<Span>, SchemaError>)
    ensures r == Collect(changes, Checker(source))
  {
    var spans: seq<Span> := [];
    NothingCollected(changes, Checker(source));
    for k := 0 to |changes|
      invariant CollectedTo(changes, Checker(source), k, spans)
    {
      var change := changes[k];
      CollectedMore(changes, Checker(source), k, spans);
      if change.start >= change.end || change.end > |source| || !HighlightSpans.IsCharBoundary(source, change.start) ||
         !HighlightSpans.IsCharBoundary(source, change.end) {
        return Err(InvalidRange);
      }
      if source[change.start..change.end] != change.content {
        return Err(ContentMismatch);
      }
      spans := spans + [Span(change.start, change.end, change.highlight)];
    }
    AllCollected(changes, Checker(source), spans);
    r := Ok(spans);
  }

  method NormalizeCell(raw: Option<RawCell>, lines: seq<seq<Byte>>) returns (r: Result<Option<Cell>, SchemaError>)
    ensures r == NormalCell(raw, lines)
  {
    if raw.None? {
      return Ok(None);
    }
    var cell := raw.value;
    var line := ValidateLine(Some(cell.line), lines);
    if line.Err? {
      return Err(line.error);
    }
    var source := lines[cell.line];
    var checked := NormalizeChanges(cell.changes, source);
    if checked.Err? {
      return Err(checked.error);
    }
    var spans := SortBy(checked.value, SpanLeq);
    if !Disjoint(spans) {
      return Err(OverlappingSpans);
    }
    return Ok(Some(Cell(line.value.GetOr(0), source, spans)));
  }

  function SpanOf(change: RawChange): Span {
    Span(change.start, change.end, change.highlight)
  }

  function SpansOf(changes: seq<RawChange>): (spans: seq<Span>)
    ensures |spans| == |changes| && forall k | 0 <= k < |changes| :: spans[k] == SpanOf(changes[k])
  {
    seq(|changes|, k requires 0 <= k < |changes| => SpanOf(changes[k]))
  }

  /** No character of the line is cut in two at `i`: a UTF-8 continuation byte begins none. */
  predicate CutsNone(text: seq<Byte>, i: nat) {
    i <= |text| && (i == |text| || text[i] < 0x80 || text[i] >= 0xC0 || i == 0)
  }

  /** A change that names a non-empty range of the line, of whole characters, and quotes it. */
  predicate Quotes(change: RawChange, text: seq<Byte>) {
    && change.start < change.end <= |text| && text[change.start..change.end] == change.content
    && CutsNone(text, change.start) && CutsNone(text, change.end)
  }

  predicate Clash(a: RawChange, b: RawChange) {
    a.start < b.end && b.start < a.end
  }

  lemma {:induction false} DisjointPair(spans: seq<Span>, i: nat, j: nat)
    requires Disjoint(spans) && i < j < |spans| && forall k | 0 <= k < |spans| :: spans[k].start < spans[k].end
    ensures spans[i].end <= spans[j].start
  {
    if i > 0 {
      DisjointPair(spans[1..], i - 1, j - 1);
    } else if j > 1 {
      DisjointPair(spans[1..], 0, j - 1);
    }
  }

  predicate Overlap(a: Span, b: Span) {
    a.start < b.end && b.start < a.end
  }

  predicate AllApart(spans: seq<Span>) {
    forall i, j | 0 <= i < j < |spans| :: !Overlap(spans[i], spans[j])
  }

  ghost predicate ApartAsBag(bag: multiset<Span>) {
    (forall x :: bag[x] <= 1) && (forall a, b | a in bag && b in bag && a != b :: !Overlap(a, b))
  }

  /** Whether spans keep apart does not depend on their order. */
  lemma ApartInAnyOrder(spans: seq<Span>)
    requires forall x | x in spans :: x.start < x.end
    ensures AllApart(spans) <==> ApartAsBag(multiset(spans))
  {
    if AllApart(spans) {
      forall x ensures multiset(spans)[x] <= 1 {
        if multiset(spans)[x] >= 2 {
          CountedRepeats(spans, x);
        }
      }
      forall a, b | a in multiset(spans) && b in multiset(spans) && a != b ensures !Overlap(a, b) {
        var i :| 0 <= i < |spans| && spans[i] == a;
        var j :| 0 <= j < |spans| && spans[j] == b;
        assert i < j || j < i;
      }
    }
    if ApartAsBag(multiset(spans)) {
      forall i, j | 0 <= i < j < |spans| ensures !Overlap(spans[i], spans[j]) {
        RepeatedCounts(spans, i, j);
        assert spans[i] in multiset(spans) && spans[j] in multiset(spans);
      }
    }
  }

  lemma {:induction false} SortedApart(spans: seq<Span>)
    requires SortedBy(spans, SpanLeq) && forall x | x in spans :: x.start < x.end
    ensures Disjoint(spans) <==> AllApart(spans)
    decreases |spans|
  {
    if Disjoint(spans) {
      forall i, j | 0 <= i < j < |spans| ensures !Overlap(spans[i], spans[j]) {
        DisjointPair(spans, i, j);
      }
    }
    if AllApart(spans) && |spans| >= 2 {
      assert spans[0] in spans && spans[1] in spans && !Overlap(spans[0], spans[1]);
      assert forall i, j | 0 <= i < j < |spans[1..]| :: spans[1..][i] == spans[i + 1] && spans[1..][j] == spans[j + 1];
      SortedApart(spans[1..]);
    }
  }

  /** What makes a cell acceptable: its line exists, each change quotes the line, and no two changes clash. */
  predicate Acceptable(cell: RawCell, lines: seq<seq<Byte>>) {
    && LineExists(Some(cell.line), lines)
    && (forall k | 0 <= k < |cell.changes| :: Quotes(cell.changes[k], lines[cell.line]))
    && (forall i, j | 0 <= i < j < |cell.changes| :: !Clash(cell.changes[i], cell.changes[j]))
  }

  /** What a cell is made into: the line it names, and its changes sorted, in bounds and apart. */
  predicate Anchored(cell: RawCell, normal: Cell, lines: seq<seq<Byte>>) {
    && normal.line == cell.line + 1 && cell.line < |lines| && normal.text == lines[cell.line]
    && multiset(normal.spans) == multiset(SpansOf(cell.changes))
    && SortedBy(normal.spans, SpanLeq) && Disjoint(normal.spans)
    && forall x | x in normal.spans ::
         x.start < x.end <= |normal.text| && CutsNone(normal.text, x.start) && CutsNone(normal.text, x.end)
  }

  lemma CheckedChanges(changes: seq<RawChange>, source: seq<Byte>)
    ensures var r := Collect(changes, Checker(source));
            && (r.Ok? <==> forall k | 0 <= k < |changes| :: Quotes(changes[k], source))
            && (r.Ok? ==> r.value == SpansOf(changes))
  {
    var check := Checker(source);
    CollectedAt(changes, check);
    assert forall k | 0 <= k < |changes| :: check(changes[k]).Ok? <==> Quotes(changes[k], source);
    assert forall k | 0 <= k < |changes| && check(changes[k]).Ok? :: check(changes[k]).value == SpanOf(changes[k]);
  }

  lemma SortedKeeps(spans: seq<Span>)
    ensures SortedBy(SortBy(spans, SpanLeq), SpanLeq) && multiset(SortBy(spans, SpanLeq)) == multiset(spans)
    ensures forall x :: x in SortBy(spans, SpanLeq) <==> x in spans
  {
    SpanLeqOrders();
    SortSorts(spans, SpanLeq);
    SortPermutes(spans, SpanLeq);
    SameMembers(SortBy(spans, SpanLeq), spans);
  }

  /** After sorting, comparing neighbours finds out whether any two spans overlap. */
  lemma NeighboursSuffice(spans: seq<Span>)
    requires forall x | x in spans :: x.start < x.end
    ensures Disjoint(SortBy(spans, SpanLeq)) <==> AllApart(spans)
  {
    SortedKeeps(spans);
    ApartInAnyOrder(spans);
    ApartInAnyOrder(SortBy(spans, SpanLeq));
    SortedApart(SortBy(spans, SpanLeq));
  }

  lemma QuotedSpan(changes: seq<RawChange>, source: seq<Byte>, x: Span)
    requires forall k | 0 <= k < |changes| :: Quotes(changes[k], source)
    requires x in SpansOf(changes)
    ensures x.start < x.end <= |source|
    ensures CutsNone(source, x.start) && CutsNone(source, x.end)
  {
    var k :| 0 <= k < |changes| && SpansOf(changes)[k] == x;
  }

  lemma SortedSpans(changes: seq<RawChange>, source: seq<Byte>)
    requires forall k | 0 <= k < |changes| :: Quotes(changes[k], source)
    ensures var sorted := SortBy(SpansOf(changes), SpanLeq);
            && SortedBy(sorted, SpanLeq) && multiset(sorted) == multiset(SpansOf(changes))
            && (forall x | x in sorted :: x.start < x.end <= |source| && CutsNone(source, x.start) && CutsNone(source, x.end))
            && (Disjoint(sorted) <==> forall i, j | 0 <= i < j < |changes| :: !Clash(changes[i], changes[j]))
  {
    var spans := SpansOf(changes);
    SortedKeeps(spans);
    forall x | x in spans
      ensures x.start < x.end <= |source| && CutsNone(source, x.start) && CutsNone(source, x.end)
    {
      QuotedSpan(changes, source, x);
    }
    NeighboursSuffice(spans);
    ClashesAreOverlaps(changes);
  }

  lemma ClashesAreOverlaps(changes: seq<RawChange>)
    ensures AllApart(SpansOf(changes)) <==> forall i, j | 0 <= i < j < |changes| :: !Clash(changes[i], changes[j])
  {
    assert forall i, j | 0 <= i < j < |changes| ::
        Overlap(SpansOf(changes)[i], SpansOf(changes)[j]) <==> Clash(changes[i], changes[j]);
  }

  lemma QuotedCell(cell: RawCell, lines: seq<seq<Byte>>, sorted: seq<Span>)
    requires LineExists(Some(cell.line), lines) && sorted == SortBy(SpansOf(cell.changes), SpanLeq)
    requires forall k | 0 <= k < |cell.changes| :: Quotes(cell.changes[k], lines[cell.line])
    ensures NormalCell(Some(cell), lines) ==
            if Disjoint(sorted) then Ok(Some(Cell(cell.line + 1, lines[cell.line], sorted))) else Err(OverlappingSpans)
  {
    CheckedChanges(cell.changes, lines[cell.line]);
  }

  lemma MisquotedCell(cell: RawCell, lines: seq<seq<Byte>>)
    requires !(LineExists(Some(cell.line), lines) &&
               forall k | 0 <= k < |cell.changes| :: Quotes(cell.changes[k], lines[cell.line]))
    ensures NormalCell(Some(cell), lines).Err?
  {
    if LineExists(Some(cell.line), lines) {
      CheckedChanges(cell.changes, lines[cell.line]);
    }
  }

  lemma SortedCell(cell: RawCell, lines: seq<seq<Byte>>, sorted: seq<Span>)
    requires LineExists(Some(cell.line), lines) && sorted == SortBy(SpansOf(cell.changes), SpanLeq)
    requires forall k | 0 <= k < |cell.changes| :: Quotes(cell.changes[k], lines[cell.line])
    ensures Disjoint(sorted) <==> Acceptable(cell, lines)
    ensures Disjoint(sorted) ==> Anchored(cell, Cell(cell.line + 1, lines[cell.line], sorted), lines)
  {
    SortedSpans(cell.changes, lines[cell.line]);
  }

  /** A cell is accepted exactly when it is acceptable, and is then anchored to the source. */
  lemma CellAcceptedWhen(cell: RawCell, lines: seq<seq<Byte>>)
    ensures NormalCell(Some(cell), lines).Ok? <==> Acceptable(cell, lines)
    ensures NormalCell(Some(cell), lines).Ok? ==>
              NormalCell(Some(cell), lines).value.Some? && Anchored(cell, NormalCell(Some(cell), lines).value.value, lines)
  {
    if LineExists(Some(cell.line), lines) &&
       forall k | 0 <= k < |cell.changes| :: Quotes(cell.changes[k], lines[cell.line])
    {
      var sorted := SortBy(SpansOf(cell.changes), SpanLeq);
      QuotedCell(cell, lines, sorted);
      SortedCell(cell, lines, sorted);
    } else {
      MisquotedCell(cell, lines);
    }
  }

  /* ---- The alignment ---- */

  /** The first alignment row that is refused. */
  function AlignmentFault(aligned: seq<Pair>, oldLines: seq<seq<Byte>>, newLines: seq<seq<Byte>>): Option<SchemaError> {
    if aligned == [] then None
    else
      var init, last := aligned[..|aligned| - 1], aligned[|aligned| - 1];
      var before := AlignmentFault(init, oldLines, newLines);
      if before.Some? then before
      else if ValidateLine(last.0, oldLines).Err? then Some(ValidateLine(last.0, oldLines).error)
      else if ValidateLine(last.1, newLines).Err? then Some(ValidateLine(last.1, newLines).error)
      else if last == (None, None) then Some(EmptyRow)
      else if last in init then Some(DuplicateRow)
      else None
  }

  function PositionsOf(aligned: seq<Pair>): map<Pair, nat> {
    if aligned == [] then map[]
    else PositionsOf(aligned[..|aligned| - 1])[aligned[|aligned| - 1] := |aligned| - 1]
  }

  lemma {:induction false} FaultStays(a: seq<Pair>, b: seq<Pair>, oldLines: seq<seq<Byte>>, newLines: seq<seq<Byte>>)
    requires AlignmentFault(a, oldLines, newLines).Some?
    ensures AlignmentFault(a + b, oldLines, newLines) == AlignmentFault(a, oldLines, newLines)
    decreases |b|
  {
    if b == [] {
      assert a + b == a;
    } else {
      FaultStays(a, b[..|b| - 1], oldLines, newLines);
      assert (a + b)[..|a + b| - 1] == a + b[..|b| - 1];
    }
  }

  lemma {:induction false} PositionKeys(aligned: seq<Pair>)
    ensures forall pair :: pair in PositionsOf(aligned) <==> pair in aligned
  {
    if aligned != [] {
      PositionKeys(aligned[..|aligned| - 1]);
      assert aligned == aligned[..|aligned| - 1] + [aligned[|aligned| - 1]];
    }
  }

  method BuildPositions(aligned: seq<Pair>, oldLines: seq<seq<Byte>>, newLines: seq<seq<Byte>>)
    returns (r: Result<map<Pair, nat>, SchemaError>)
    ensures r == match AlignmentFault(aligned, oldLines,
            newLines) case Some(e) => Err(e) case None => Ok(PositionsOf(aligned))
  {
    var positions: map<Pair, nat> := map[];
    for k := 0 to |aligned|
      invariant positions == PositionsOf(aligned[..k]) && AlignmentFault(aligned[..k], oldLines, newLines).None?
    {
      var pair := aligned[k];
      ghost var done := aligned[..k + 1];
      assert done[..k] == aligned[..k] && done[k] == pair && aligned == done + aligned[k + 1..];
      if AlignmentFault(done, oldLines, newLines).Some? {
        FaultStays(done, aligned[k + 1..], oldLines, newLines);
      }
      PositionKeys(aligned[..k]);
      var base, current := ValidateLine(pair.0, oldLines), ValidateLine(pair.1, newLines);
      if base.Err? {
        return Err(base.error);
      }
      if current.Err? {
        return Err(current.error);
      }
      if pair.0.None? && pair.1.None? {
        return Err(EmptyRow);
      }
      if pair in positions {
        return Err(DuplicateRow);
      }
      positions := positions[pair := k];
    }
    assert aligned[..|aligned|] == aligned;
    return Ok(positions);
  }

  /** Every row names existing lines on at least one side, and no row comes twice. */
  predicate GoodAlignment(aligned: seq<Pair>, oldLines: seq<seq<Byte>>, newLines: seq<seq<Byte>>) {
    && (forall k | 0 <= k < |aligned| ::
          LineExists(aligned[k].0, oldLines) && LineExists(aligned[k].1, newLines) && aligned[k] != (None, None))
    && (forall i, j | 0 <= i < j < |aligned| :: aligned[i] != aligned[j])
  }

  lemma {:induction false} FaultFree(aligned: seq<Pair>, oldLines: seq<seq<Byte>>, newLines: seq<seq<Byte>>)
    ensures AlignmentFault(aligned, oldLines, newLines).None? <==> GoodAlignment(aligned, oldLines, newLines)
  {
    if aligned != [] {
      var n := |aligned| - 1;
      FaultFree(aligned[..n], oldLines, newLines);
      assert forall k | 0 <= k < n :: aligned[..n][k] == aligned[k];
      if aligned[n] in aligned[..n] {
        var i :| 0 <= i < n && aligned[..n][i] == aligned[n];
        assert aligned[i] == aligned[n];
      }
    }
  }

  lemma {:induction false} PositionAt(aligned: seq<Pair>, k: nat)
    requires k < |aligned| && forall i, j | 0 <= i < j < |aligned| :: aligned[i] != aligned[j]
    ensures aligned[k] in PositionsOf(aligned) && PositionsOf(aligned)[aligned[k]] == k
  {
    var n := |aligned| - 1;
    if k < n {
      PositionAt(aligned[..n], k);
    }
  }

  /* ---- Rows in alignment order ---- */

  function KeyOf(row: RawRow): Pair {
    (if row.lhs.Some? then Some(row.lhs.value.line) else None, if row.rhs.Some? then Some(row.rhs.value.line) else None)
  }

  function Rank(positions: map<Pair, nat>, row: RawRow): int {
    if KeyOf(row) in positions then positions[KeyOf(row)] else USIZE_MAX
  }

  function RankLeq(positions: map<Pair, nat>): (RawRow, RawRow) -> bool {
    (a, b) => Rank(positions, a) <= Rank(positions, b)
  }

  /** Rows are looked up while they are compared, so a chunk of a single row is never looked up. */
  function OrderRows(rows: seq<RawRow>, positions: map<Pair, nat>): Result<seq<RawRow>, SchemaError> {
    if |rows| >= 2 && exists row :: row in rows && KeyOf(row) !in positions then Err(AbsentRow)
    else Ok(SortBy(rows, RankLeq(positions)))
  }

  function NormalRow(raw: RawRow, oldLines: seq<seq<Byte>>, newLines: seq<seq<Byte>>): Result<Row, SchemaError> {
    match NormalCell(raw.lhs, oldLines)
    case Err(e) => Err(e)
    case Ok(base) =>
      match NormalCell(raw.rhs, newLines)
      case Err(e) => Err(e)
      case Ok(current) => Ok(Row(base, current))
  }

  function NormalChunk(rows: seq<RawRow>, positions: map<Pair, nat>, oldLines: seq<seq<Byte>>, newLines: seq<seq<Byte>>)
    : Result<seq<Row>, SchemaError>
  {
    match OrderRows(rows, positions)
    case Err(e) => Err(e)
    case Ok(sorted) => Collect(sorted, row => NormalRow(row, oldLines, newLines))
  }

  lemma RankOrders(positions: map<Pair, nat>)
    ensures TotalPreorder(RankLeq(positions))
  {
  }

  predicate CellFits(raw: Option<RawCell>, normal: Option<Cell>, lines: seq<seq<Byte>>) {
    match raw
    case None => normal.None?
    case Some(cell) => normal.Some? && Anchored(cell, normal.value, lines)
  }

  predicate RowFits(raw: RawRow, row: Row, oldLines: seq<seq<Byte>>, newLines: seq<seq<Byte>>) {
    CellFits(raw.lhs, row.base, oldLines) && CellFits(raw.rhs, row.current, newLines)
  }

  predicate RowAcceptable(raw: RawRow, oldLines: seq<seq<Byte>>, newLines: seq<seq<Byte>>) {
    && (raw.lhs.Some? ==> Acceptable(raw.lhs.value, oldLines))
    && (raw.rhs.Some? ==> Acceptable(raw.rhs.value, newLines))
  }

  lemma RowAcceptedWhen(raw: RawRow, oldLines: seq<seq<Byte>>, newLines: seq<seq<Byte>>)
    ensures NormalRow(raw, oldLines, newLines).Ok? <==> RowAcceptable(raw, oldLines, newLines)
    ensures NormalRow(raw, oldLines, newLines).Ok? ==>
            RowFits(raw, NormalRow(raw, oldLines, newLines).value, oldLines, newLines)
  {
    if raw.lhs.Some? {
      CellAcceptedWhen(raw.lhs.value, oldLines);
    }
    if raw.rhs.Some? {
      CellAcceptedWhen(raw.rhs.value, newLines);
    }
  }

  predicate ChunkAcceptable(rows: seq<RawRow>, aligned: seq<Pair>, oldLines: seq<seq<Byte>>, newLines: seq<seq<Byte>>) {
    && (|rows| >= 2 ==> forall row | row in rows :: KeyOf(row) in aligned)
    && (forall row | row in rows :: RowAcceptable(row, oldLines, newLines))
  }

  /** A normalised chunk: a rearrangement of the raw rows into alignment order, each row made from its raw row. */
  predicate ChunkFits(rows: seq<RawRow>, chunk: seq<Row>, positions: map<Pair, nat>, oldLines: seq<seq<Byte>>,
      newLines: seq<seq<Byte>>) {
    var sorted := SortBy(rows, RankLeq(positions));
    && multiset(sorted) == multiset(rows) && |chunk| == |sorted| == |rows|
    && (forall i, j | 0 <= i < j < |sorted| :: Rank(positions, sorted[i]) <= Rank(positions, sorted[j]))
    && (forall k | 0 <= k < |chunk| :: RowFits(sorted[k], chunk[k], oldLines, newLines))
  }

  lemma SortedRows(rows: seq<RawRow>, positions: map<Pair, nat>)
    ensures var sorted := SortBy(rows, RankLeq(positions));
            && multiset(sorted) == multiset(rows) && |sorted| == |rows| && (forall row :: row in sorted <==> row in rows)
            && (forall i, j | 0 <= i < j < |sorted| :: Rank(positions, sorted[i]) <= Rank(positions, sorted[j]))
  {
    var sorted := SortBy(rows, RankLeq(positions));
    RankOrders(positions);
    SortSorts(rows, RankLeq(positions));
    SortPermutes(rows, RankLeq(positions));
    SameMembers(sorted, rows);
    forall i, j | 0 <= i < j < |sorted| ensures Rank(positions, sorted[i]) <= Rank(positions, sorted[j]) {
      SortedPair(sorted, RankLeq(positions), i, j);
    }
  }

  lemma CollectedRows(sorted: seq<RawRow>, oldLines: seq<seq<Byte>>, newLines: seq<seq<Byte>>)
    ensures var r := Collect(sorted, row => NormalRow(row, oldLines, newLines));
            && (r.Ok? <==> forall row | row in sorted :: RowAcceptable(row, oldLines, newLines))
            && (r.Ok? ==> |r.value| == |sorted|)
            && (r.Ok? ==> forall k | 0 <= k < |sorted| :: RowFits(sorted[k], r.value[k], oldLines, newLines))
  {
    var normal := row => NormalRow(row, oldLines, newLines);
    CollectedAt(sorted, normal);
    forall k | 0 <= k < |sorted|
      ensures normal(sorted[k]).Ok? <==> RowAcceptable(sorted[k], oldLines, newLines)
      ensures normal(sorted[k]).Ok? ==> RowFits(sorted[k], normal(sorted[k]).value, oldLines, newLines)
    {
      RowAcceptedWhen(sorted[k], oldLines, newLines);
    }
  }

  lemma ChunkAcceptedWhen(rows: seq<RawRow>, aligned: seq<Pair>, oldLines: seq<seq<Byte>>, newLines: seq<seq<Byte>>)
    ensures var r := NormalChunk(rows, PositionsOf(aligned), oldLines, newLines);
            && (r.Ok? <==> ChunkAcceptable(rows, aligned, oldLines, newLines))
            && (r.Ok? ==> ChunkFits(rows, r.value, PositionsOf(aligned), oldLines, newLines))
  {
    PositionKeys(aligned);
    SortedRows(rows, PositionsOf(aligned));
    CollectedRows(SortBy(rows, RankLeq(PositionsOf(aligned))), oldLines, newLines);
  }

  /* ---- The whole output ---- */

  function Trim(s: string): string {
    if s != [] && IsWhite(s[0]) then Trim(s[1..])
    else if s != [] && IsWhite(s[|s| - 1]) then Trim(s[..|s| - 1])
    else s
  }

  function Lower(s: string): string {
    if s == [] then [] else [if 'A' <= s[0] <= 'Z' then s[0] - 'A' + 'a' else s[0]] + Lower(s[1..])
  }

  /** The text backends, plain or with the reason for falling back to them. */
  predicate IsLineOriented(language: string) {
    var name := Lower(Trim(language));
    name == "text" || name == "binary" || name == "plaintext" || "text " <= name
  }

  function ParseStatus(value: string): Result<Status, SchemaError> {
    if value == "unchanged" then Ok(Unchanged)
    else if value == "changed" then Ok(Changed)
    else if value == "created" then Ok(Created)
    else if value == "deleted" then Ok(Deleted)
    else Err(UnknownStatus)
  }

  function SingleFile(root: RawRoot): Result<RawFile, SchemaError> {
    match root
    case One(file) => Ok(file)
    case Many(files) => if |files| == 1 then Ok(files[0]) else Err(WrongCount)
  }

  function SingleSidedRow(line: nat, text: seq<Byte>, created: bool): Row {
    var cell := Cell(if line > U32_MAX then U32_MAX else line, text, []);
    if created then Row(None, Some(cell)) else Row(Some(cell), None)
  }

  function SingleSidedRowsOf(lines: seq<seq<Byte>>, created: bool): (rows: seq<Row>)
    ensures |rows| == |lines| && forall k | 0 <= k < |lines| :: rows[k] == SingleSidedRow(k + 1, lines[k], created)
  {
    seq(|lines|, k requires 0 <= k < |lines| => SingleSidedRow(k + 1, lines[k], created))
  }

  /** A created or deleted file without structural rows is shown whole, on one side. */
  function SingleSidedChunk(source: seq<Byte>, created: bool): seq<seq<Row>> {
    var lines := TextLines(source);
    if lines == [] then []
    else [SingleSidedRowsOf(lines, created)]
  }

  function NumbersOf(row: Row): Pair {
    (if row.base.Some? then Some(row.base.value.line) else None, if row.current.Some? then
        Some(row.current.value.line) else None)
  }

  function Concat(chunks: seq<seq<Row>>): seq<Row> {
    if chunks == [] then [] else chunks[0] + Concat(chunks[1..])
  }

  function Numbers(rows: seq<Row>): (pairs: seq<Pair>)
    ensures |pairs| == |rows| && forall k | 0 <= k < |rows| :: pairs[k] == NumbersOf(rows[k])
  {
    seq(|rows|, k requires 0 <= k < |rows| => NumbersOf(rows[k]))
  }

  function ShownChunks(status: Status, chunks: seq<seq<Row>>, oldSource: seq<Byte>, newSource: seq<Byte>): seq<seq<Row>> {
    if status.Created? && chunks == [] then SingleSidedChunk(newSource, true)
    else if status.Deleted? && chunks == [] then SingleSidedChunk(oldSource, false)
    else chunks
  }

  function NormalizeFile(file: RawFile, oldSource: seq<Byte>, newSource: seq<Byte>): Result<Presentation, SchemaError> {
    match ParseStatus(file.status)
    case Err(e) => Err(e)
    case Ok(status) =>
      if IsLineOriented(file.language) then Ok(Presentation(file.language, status, true, [], []))
      else
        var oldLines, newLines := SourceLines(oldSource), SourceLines(newSource);
        match AlignmentFault(file.alignedLines, oldLines, newLines)
        case Some(e) => Err(e)
        case None =>
          match Collect(file.chunks, rows => NormalChunk(rows, PositionsOf(file.alignedLines), oldLines, newLines))
          case Err(e) => Err(e)
          case Ok(chunks) =>
            var shown := ShownChunks(status, chunks, oldSource, newSource);
            Ok(Presentation(file.language, status, false, Numbers(Concat(shown)), shown))
  }

  method NormalizeJsonOutput(root: RawRoot, oldSource: seq<Byte>,
      newSource: seq<Byte>) returns (r: Result<Presentation, SchemaError>)
    ensures r == match root
                 case One(file) => NormalizeFile(file, oldSource, newSource)
                 case Many(files) =>
                   if |files| == 1 then NormalizeFile(files[0], oldSource, newSource) else Err(WrongCount)
  {
    var single := SingleFile(root);
    if single.Err? {
      return Err(single.error);
    }
    var file := single.value;
    var status := ParseStatus(file.status);
    if status.Err? {
      return Err(status.error);
    }
    if IsLineOriented(file.language) {
      return Ok(Presentation(file.language, status.value, true, [], []));
    }
    var oldLines, newLines := SourceLines(oldSource), SourceLines(newSource);
    var positions := BuildPositions(file.alignedLines, oldLines, newLines);
    if positions.Err? {
      return Err(positions.error);
    }
    var chunks := Collect(file.chunks, rows => NormalChunk(rows, positions.value, oldLines, newLines));
    if chunks.Err? {
      return Err(chunks.error);
    }
    var shown := ShownChunks(status.value, chunks.value, oldSource, newSource);
    return Ok(Presentation(file.language, status.value, false, Numbers(Concat(shown)), shown));
  }

  /* ---- What a normalised file is ---- */

  const STATUS_NAMES := map["unchanged" := Unchanged, "changed" := Changed, "created" := Created, "deleted" := Deleted]

  predicate FileAcceptable(file: RawFile, oldLines: seq<seq<Byte>>, newLines: seq<seq<Byte>>) {
    && GoodAlignment(file.alignedLines, oldLines, newLines)
    && forall c | 0 <= c < |file.chunks| :: ChunkAcceptable(file.chunks[c], file.alignedLines, oldLines, newLines)
  }

  lemma CollectedChunks(file: RawFile, oldLines: seq<seq<Byte>>, newLines: seq<seq<Byte>>)
    ensures var r := Collect(file.chunks, rows => NormalChunk(rows, PositionsOf(file.alignedLines), oldLines, newLines));
            && (r.Ok? <==> forall c | 0 <= c < |file.chunks| :: ChunkAcceptable(file.chunks[c], file.alignedLines,
                oldLines, newLines))
            && (r.Ok? ==> |r.value| == |file.chunks| && forall c | 0 <= c < |file.chunks| ::
                            ChunkFits(file.chunks[c], r.value[c], PositionsOf(file.alignedLines), oldLines, newLines))
  {
    var normal := rows => NormalChunk(rows, PositionsOf(file.alignedLines), oldLines, newLines);
    CollectedAt(file.chunks, normal);
    forall c | 0 <= c < |file.chunks|
      ensures normal(file.chunks[c]).Ok? <==> ChunkAcceptable(file.chunks[c], file.alignedLines, oldLines, newLines)
      ensures normal(file.chunks[c]).Ok? ==>
                ChunkFits(file.chunks[c], normal(file.chunks[c]).value, PositionsOf(file.alignedLines), oldLines, newLines)
    {
      ChunkAcceptedWhen(file.chunks[c], file.alignedLines, oldLines, newLines);
    }
  }

  /** A structural result is accepted exactly when its status is known, its alignment is good and its chunks are acceptable;
      and then it lists each upstream chunk's rows as a permutation in alignment order, every cell anchored to its line. */
  lemma FileAcceptedWhen(file: RawFile, oldSource: seq<Byte>, newSource: seq<Byte>)
    requires !IsLineOriented(file.language)
    ensures var r := NormalizeFile(file, oldSource, newSource);
            var oldLines, newLines := SourceLines(oldSource), SourceLines(newSource);
            && (r.Ok? <==> file.status in STATUS_NAMES && FileAcceptable(file, oldLines, newLines))
            && (r.Ok? && file.chunks != [] ==> |r.value.chunks| == |file.chunks| && forall c | 0 <= c < |file.chunks| ::
                  ChunkFits(file.chunks[c], r.value.chunks[c], PositionsOf(file.alignedLines), oldLines, newLines))
  {
    FaultFree(file.alignedLines, SourceLines(oldSource), SourceLines(newSource));
    CollectedChunks(file, SourceLines(oldSource), SourceLines(newSource));
  }

  /** One side of a pair of line numbers. */
  function OnSide(pair: Pair, current: bool): Option<nat> {
    if current then pair.1 else pair.0
  }

  /** Line numbers on one side never go back, rows without one left out. */
  predicate Monotone(pairs: seq<Pair>, current: bool) {
    forall i, j | 0 <= i < j < |pairs| && OnSide(pairs[i], current).Some? && OnSide(pairs[j], current).Some? ::
      OnSide(pairs[i], current).value <= OnSide(pairs[j], current).value
  }

  predicate NotAfter(a: Pair, b: Pair, current: bool) {
    OnSide(a, current).Some? && OnSide(b, current).Some? ==> OnSide(a, current).value <= OnSide(b, current).value
  }

  /** Of two alignment rows, the first is listed before the second. */
  predicate ComesBefore(aligned: seq<Pair>, a: Pair, b: Pair) {
    exists i, j :: 0 <= i < j < |aligned| && aligned[i] == a && aligned[j] == b
  }

  /** Rows of one chunk keep their line numbers in the order in which the alignment lists them. */
  predicate WithinOrder(rows: seq<RawRow>, aligned: seq<Pair>, current: bool) {
    forall x, y | x in rows && y in rows && ComesBefore(aligned, KeyOf(x), KeyOf(y)) :: NotAfter(KeyOf(x), KeyOf(y), current)
  }

  /** No row of the first chunk has a later line than a row of the second. */
  predicate AcrossOrder(first: seq<RawRow>, second: seq<RawRow>, current: bool) {
    forall x, y | x in first && y in second :: NotAfter(KeyOf(x), KeyOf(y), current)
  }

  /** Line numbers of the raw rows, from zero, are in order inside each chunk and from chunk to chunk. */
  predicate InOrder(file: RawFile, current: bool) {
    && (forall c | 0 <= c < |file.chunks| :: WithinOrder(file.chunks[c], file.alignedLines, current))
    && ChunksInOrder(file.chunks, current)
  }

  predicate ChunksInOrder(chunks: seq<seq<RawRow>>, current: bool) {
    forall c, d | 0 <= c < d < |chunks| :: AcrossOrder(chunks[c], chunks[d], current)
  }

  lemma RankIsPosition(aligned: seq<Pair>, row: RawRow)
    requires (forall i, j | 0 <= i < j < |aligned| :: aligned[i] != aligned[j]) && KeyOf(row) in aligned
    ensures 0 <= Rank(PositionsOf(aligned), row) < |aligned| && aligned[Rank(PositionsOf(aligned), row)] == KeyOf(row)
  {
    var k :| 0 <= k < |aligned| && aligned[k] == KeyOf(row);
    PositionAt(aligned, k);
  }

  /** Ranks compare as the alignment lists the rows; equal ranks are equal rows. */
  lemma RankOrder(aligned: seq<Pair>, x: RawRow, y: RawRow)
    requires (forall i, j | 0 <= i < j < |aligned| :: aligned[i] != aligned[j])
    requires KeyOf(x) in aligned && KeyOf(y) in aligned
    ensures Rank(PositionsOf(aligned), x) < Rank(PositionsOf(aligned), y) <==> ComesBefore(aligned, KeyOf(x), KeyOf(y))
    ensures Rank(PositionsOf(aligned), x) == Rank(PositionsOf(aligned), y) ==> KeyOf(x) == KeyOf(y)
  {
    RankIsPosition(aligned, x);
    RankIsPosition(aligned, y);
    if ComesBefore(aligned, KeyOf(x), KeyOf(y)) {
      var i, j :| 0 <= i < j < |aligned| && aligned[i] == KeyOf(x) && aligned[j] == KeyOf(y);
      PositionAt(aligned, i);
      PositionAt(aligned, j);
    }
  }

  lemma FitNumbers(raw: RawRow, row: Row, oldLines: seq<seq<Byte>>, newLines: seq<seq<Byte>>, current: bool)
    requires RowFits(raw, row, oldLines, newLines)
    ensures OnSide(NumbersOf(row), current).Some? <==> OnSide(KeyOf(raw), current).Some?
    ensures OnSide(KeyOf(raw), current).Some? ==>
            OnSide(NumbersOf(row), current).value == OnSide(KeyOf(raw), current).value + 1
  {
  }

  /** Normalised rows compare as the raw rows they were made from. */
  lemma FitOrder(a: RawRow, b: RawRow, x: Row, y: Row, oldLines: seq<seq<Byte>>, newLines: seq<seq<Byte>>, current: bool)
    requires RowFits(a, x, oldLines, newLines) && RowFits(b, y, oldLines, newLines)
    ensures NotAfter(NumbersOf(x), NumbersOf(y), current) <==> NotAfter(KeyOf(a), KeyOf(b), current)
  {
    FitNumbers(a, x, oldLines, newLines, current);
    FitNumbers(b, y, oldLines, newLines, current);
  }

  /** A chunk as the normaliser makes it from raw rows. */
  ghost predicate MadeFrom(rows: seq<RawRow>, chunk: seq<Row>, aligned: seq<Pair>, oldLines: seq<seq<Byte>>,
                           newLines: seq<seq<Byte>>)
  {
    && (forall i, j | 0 <= i < j < |aligned| :: aligned[i] != aligned[j])
    && ChunkAcceptable(rows, aligned, oldLines, newLines)
    && ChunkFits(rows, chunk, PositionsOf(aligned), oldLines, newLines)
  }

  lemma PairOrdered(rows: seq<RawRow>, chunk: seq<Row>, aligned: seq<Pair>, oldLines: seq<seq<Byte>>,
                    newLines: seq<seq<Byte>>, current: bool, i: nat, j: nat)
    requires MadeFrom(rows, chunk, aligned, oldLines, newLines) && WithinOrder(rows, aligned, current)
    requires i < j < |chunk|
    ensures NotAfter(NumbersOf(chunk[i]), NumbersOf(chunk[j]), current)
  {
    var sorted := SortBy(rows, RankLeq(PositionsOf(aligned)));
    SameMembers(sorted, rows);
    assert sorted[i] in rows && sorted[j] in rows;
    RankOrder(aligned, sorted[i], sorted[j]);
    FitOrder(sorted[i], sorted[j], chunk[i], chunk[j], oldLines, newLines, current);
  }

  lemma PairListed(rows: seq<RawRow>, chunk: seq<Row>, aligned: seq<Pair>, oldLines: seq<seq<Byte>>,
                   newLines: seq<seq<Byte>>, current: bool, x: RawRow, y: RawRow)
    requires MadeFrom(rows, chunk, aligned, oldLines, newLines) && Monotone(Numbers(chunk), current)
    requires x in rows && y in rows && ComesBefore(aligned, KeyOf(x), KeyOf(y))
    ensures NotAfter(KeyOf(x), KeyOf(y), current)
  {
    var sorted := SortBy(rows, RankLeq(PositionsOf(aligned)));
    SameMembers(sorted, rows);
    var i :| 0 <= i < |sorted| && sorted[i] == x;
    var j :| 0 <= j < |sorted| && sorted[j] == y;
    RankOrder(aligned, x, y);
    NumbersMonotone(chunk, current);
    PairAt(rows, chunk, PositionsOf(aligned), oldLines, newLines, current, i, j);
  }

  lemma PairAt(rows: seq<RawRow>, chunk: seq<Row>, positions: map<Pair, nat>, oldLines: seq<seq<Byte>>,
               newLines: seq<seq<Byte>>, current: bool, i: nat, j: nat)
    requires ChunkFits(rows, chunk, positions, oldLines, newLines) && RowsMonotone(chunk, current)
    requires i < |chunk| && j < |chunk|
    requires var sorted := SortBy(rows, RankLeq(positions)); Rank(positions, sorted[i]) < Rank(positions, sorted[j])
    ensures var sorted := SortBy(rows, RankLeq(positions)); NotAfter(KeyOf(sorted[i]), KeyOf(sorted[j]), current)
  {
    var sorted := SortBy(rows, RankLeq(positions));
    assert i < j;
    assert NotAfter(NumbersOf(chunk[i]), NumbersOf(chunk[j]), current);
    FitOrder(sorted[i], sorted[j], chunk[i], chunk[j], oldLines, newLines, current);
  }

  /** One chunk is monotone exactly when its raw rows are in order as the alignment lists them. */
  lemma ChunkMonotoneWhen(rows: seq<RawRow>, chunk: seq<Row>, aligned: seq<Pair>, oldLines: seq<seq<Byte>>,
                          newLines: seq<seq<Byte>>, current: bool)
    requires MadeFrom(rows, chunk, aligned, oldLines, newLines)
    ensures Monotone(Numbers(chunk), current) <==> WithinOrder(rows, aligned, current)
  {
    if WithinOrder(rows, aligned, current) {
      forall i, j | 0 <= i < j < |chunk| ensures NotAfter(Numbers(chunk)[i], Numbers(chunk)[j], current) {
        PairOrdered(rows, chunk, aligned, oldLines, newLines, current, i, j);
      }
    }
    if Monotone(Numbers(chunk), current) {
      forall x, y | x in rows && y in rows && ComesBefore(aligned, KeyOf(x), KeyOf(y))
        ensures NotAfter(KeyOf(x), KeyOf(y), current)
      {
        PairListed(rows, chunk, aligned, oldLines, newLines, current, x, y);
      }
    }
  }

  /** A monotone alignment leaves nothing to ask inside a chunk. */
  lemma MonotoneWithin(rows: seq<RawRow>, aligned: seq<Pair>, current: bool)
    requires Monotone(aligned, current)
    ensures WithinOrder(rows, aligned, current)
  {
    forall x, y | x in rows && y in rows && ComesBefore(aligned, KeyOf(x), KeyOf(y))
      ensures NotAfter(KeyOf(x), KeyOf(y), current)
    {
      var i, j :| 0 <= i < j < |aligned| && aligned[i] == KeyOf(x) && aligned[j] == KeyOf(y);
    }
  }

  /* ---- The flat alignment ---- */

  predicate RowsInOrder(first: seq<Row>, second: seq<Row>, current: bool) {
    forall i, j | 0 <= i < |first| && 0 <= j < |second| :: NotAfter(NumbersOf(first[i]), NumbersOf(second[j]), current)
  }

  predicate RowsMonotone(rows: seq<Row>, current: bool) {
    forall i, j | 0 <= i < j < |rows| :: NotAfter(NumbersOf(rows[i]), NumbersOf(rows[j]), current)
  }

  lemma NumbersMonotone(rows: seq<Row>, current: bool)
    ensures Monotone(Numbers(rows), current) <==> RowsMonotone(rows, current)
  {
    var pairs := Numbers(rows);
    if Monotone(pairs, current) {
      forall i, j | 0 <= i < j < |rows| ensures NotAfter(NumbersOf(rows[i]), NumbersOf(rows[j]), current) {
        assert pairs[i] == NumbersOf(rows[i]) && pairs[j] == NumbersOf(rows[j]);
      }
    }
    if RowsMonotone(rows, current) {
      forall i, j | 0 <= i < j < |pairs| ensures NotAfter(pairs[i], pairs[j], current) {
        assert NotAfter(NumbersOf(rows[i]), NumbersOf(rows[j]), current);
      }
    }
  }

  lemma RowsConcat(a: seq<Row>, b: seq<Row>, current: bool)
    ensures RowsMonotone(a + b, current) <==>
            RowsMonotone(a, current) && RowsMonotone(b, current) && RowsInOrder(a, b, current)
  {
    var rows := a + b;
    if RowsMonotone(rows, current) {
      forall i, j | 0 <= i < j < |a| ensures NotAfter(NumbersOf(a[i]), NumbersOf(a[j]), current) {
        assert rows[i] == a[i] && rows[j] == a[j];
      }
      forall i, j | 0 <= i < j < |b| ensures NotAfter(NumbersOf(b[i]), NumbersOf(b[j]), current) {
        assert rows[|a| + i] == b[i] && rows[|a| + j] == b[j];
      }
      forall i, j | 0 <= i < |a| && 0 <= j < |b| ensures NotAfter(NumbersOf(a[i]), NumbersOf(b[j]), current) {
        assert rows[i] == a[i] && rows[|a| + j] == b[j];
      }
    }
  }

  /** Rows are in order before each of several chunks exactly when they are in order before all their rows. */
  lemma {:induction false} BeforeAll(first: seq<Row>, chunks: seq<seq<Row>>, current: bool)
    ensures RowsInOrder(first, Concat(chunks), current) <==>
            forall d | 0 <= d < |chunks| :: RowsInOrder(first, chunks[d], current)
  {
    if chunks != [] {
      var rest := Concat(chunks[1..]);
      BeforeAll(first, chunks[1..], current);
      BeforeBoth(first, chunks[0], rest, current);
      assert forall d | 0 < d < |chunks| :: chunks[1..][d - 1] == chunks[d];
      if RowsInOrder(first, Concat(chunks), current) {
        forall d | 0 <= d < |chunks| ensures RowsInOrder(first, chunks[d], current) {
          if d > 0 {
            assert RowsInOrder(first, chunks[1..][d - 1], current);
          }
        }
      }
      if forall d | 0 <= d < |chunks| :: RowsInOrder(first, chunks[d], current) {
        forall d | 0 <= d < |chunks[1..]| ensures RowsInOrder(first, chunks[1..][d], current) {
          assert chunks[1..][d] == chunks[d + 1];
        }
      }
    }
  }

  lemma BeforeBoth(first: seq<Row>, a: seq<Row>, b: seq<Row>, current: bool)
    ensures RowsInOrder(first, a + b, current) <==> RowsInOrder(first, a, current) && RowsInOrder(first, b, current)
  {
    if RowsInOrder(first, a + b, current) {
      forall i, j | 0 <= i < |first| && 0 <= j < |a| ensures NotAfter(NumbersOf(first[i]), NumbersOf(a[j]), current) {
        assert (a + b)[j] == a[j];
      }
      forall i, j | 0 <= i < |first| && 0 <= j < |b| ensures NotAfter(NumbersOf(first[i]), NumbersOf(b[j]), current) {
        assert (a + b)[|a| + j] == b[j];
      }
    }
  }

  predicate EachMonotone(chunks: seq<seq<Row>>, current: bool) {
    forall c | 0 <= c < |chunks| :: RowsMonotone(chunks[c], current)
  }

  predicate EachInOrder(chunks: seq<seq<Row>>, current: bool) {
    forall c, d | 0 <= c < d < |chunks| :: RowsInOrder(chunks[c], chunks[d], current)
  }

  lemma EachSplits(chunks: seq<seq<Row>>, current: bool)
    requires chunks != []
    ensures EachMonotone(chunks, current) <==> RowsMonotone(chunks[0], current) && EachMonotone(chunks[1..], current)
    ensures EachInOrder(chunks, current) <==>
            EachInOrder(chunks[1..], current) &&
            forall d | 0 <= d < |chunks[1..]| :: RowsInOrder(chunks[0], chunks[1..][d], current)
  {
    var rest := chunks[1..];
    assert forall d | 0 < d < |chunks| :: rest[d - 1] == chunks[d];
    assert forall d | 0 <= d < |rest| :: rest[d] == chunks[d + 1];
    if EachMonotone(rest, current) && RowsMonotone(chunks[0], current) {
      forall c | 0 <= c < |chunks| ensures RowsMonotone(chunks[c], current) {
        if c > 0 {
          assert RowsMonotone(rest[c - 1], current);
        }
      }
    }
    if EachInOrder(rest, current) && forall d | 0 <= d < |rest| :: RowsInOrder(chunks[0], rest[d], current) {
      forall c, d | 0 <= c < d < |chunks| ensures RowsInOrder(chunks[c], chunks[d], current) {
        if c > 0 {
          assert RowsInOrder(rest[c - 1], rest[d - 1], current);
        } else {
          assert RowsInOrder(chunks[0], rest[d - 1], current);
        }
      }
    }
  }

  /** Chunks strung together are monotone exactly when each is and they are in order among each other. */
  lemma {:induction false} ConcatMonotone(chunks: seq<seq<Row>>, current: bool)
    ensures RowsMonotone(Concat(chunks), current) <==> EachMonotone(chunks, current) && EachInOrder(chunks, current)
  {
    if chunks != [] {
      ConcatMonotone(chunks[1..], current);
      RowsConcat(chunks[0], Concat(chunks[1..]), current);
      BeforeAll(chunks[0], chunks[1..], current);
      EachSplits(chunks, current);
    }
  }

  lemma AcrossWhen(first: seq<RawRow>, second: seq<RawRow>, a: seq<Row>, b: seq<Row>, aligned: seq<Pair>,
                   oldLines: seq<seq<Byte>>, newLines: seq<seq<Byte>>, current: bool)
    requires ChunkFits(first, a, PositionsOf(aligned), oldLines, newLines)
    requires ChunkFits(second, b, PositionsOf(aligned), oldLines, newLines)
    ensures RowsInOrder(a, b, current) <==> AcrossOrder(first, second, current)
  {
    var xs, ys := SortBy(first, RankLeq(PositionsOf(aligned))), SortBy(second, RankLeq(PositionsOf(aligned)));
    SameMembers(xs, first);
    SameMembers(ys, second);
    forall i, j | 0 <= i < |a| && 0 <= j < |b|
      ensures NotAfter(NumbersOf(a[i]), NumbersOf(b[j]), current) <==> NotAfter(KeyOf(xs[i]), KeyOf(ys[j]), current)
    {
      FitOrder(xs[i], ys[j], a[i], b[j], oldLines, newLines, current);
    }
    if RowsInOrder(a, b, current) {
      forall x, y | x in first && y in second ensures NotAfter(KeyOf(x), KeyOf(y), current) {
        var i :| 0 <= i < |xs| && xs[i] == x;
        var j :| 0 <= j < |ys| && ys[j] == y;
        assert NotAfter(NumbersOf(a[i]), NumbersOf(b[j]), current);
      }
    }
    if AcrossOrder(first, second, current) {
      forall i, j | 0 <= i < |a| && 0 <= j < |b| ensures NotAfter(NumbersOf(a[i]), NumbersOf(b[j]), current) {
        assert xs[i] in first && ys[j] in second;
      }
    }
  }

  /** All chunks made from the raw ones. */
  ghost predicate AllMade(file: RawFile, chunks: seq<seq<Row>>, oldLines: seq<seq<Byte>>, newLines: seq<seq<Byte>>) {
    |chunks| == |file.chunks| && forall c | 0 <= c < |chunks| ::
      MadeFrom(file.chunks[c], chunks[c], file.alignedLines, oldLines, newLines)
  }

  lemma MadeInOrder(file: RawFile, chunks: seq<seq<Row>>, oldLines: seq<seq<Byte>>, newLines: seq<seq<Byte>>, current: bool)
    requires AllMade(file, chunks, oldLines, newLines)
    ensures EachMonotone(chunks, current) <==>
            forall c | 0 <= c < |file.chunks| :: WithinOrder(file.chunks[c], file.alignedLines, current)
    ensures EachInOrder(chunks, current) <==> ChunksInOrder(file.chunks, current)
  {
    forall c | 0 <= c < |chunks|
      ensures RowsMonotone(chunks[c], current) <==> WithinOrder(file.chunks[c], file.alignedLines, current)
    {
      ChunkMonotoneWhen(file.chunks[c], chunks[c], file.alignedLines, oldLines, newLines, current);
      NumbersMonotone(chunks[c], current);
    }
    forall c, d | 0 <= c < d < |chunks|
      ensures RowsInOrder(chunks[c], chunks[d], current) <==> AcrossOrder(file.chunks[c], file.chunks[d], current)
    {
      AcrossWhen(file.chunks[c], file.chunks[d], chunks[c], chunks[d], file.alignedLines, oldLines, newLines, current);
    }
  }

  lemma SingleSidedRows(source: seq<Byte>, created: bool)
    ensures var rows := Concat(SingleSidedChunk(source, created));
            |rows| == |TextLines(source)| &&
            forall k | 0 <= k < |rows| :: rows[k] == SingleSidedRow(k + 1, TextLines(source)[k], created)
  {
    if TextLines(source) != [] {
      ConcatOne(SingleSidedRowsOf(TextLines(source), created));
    }
  }

  lemma ConcatOne(rows: seq<Row>)
    ensures Concat([rows]) == rows
  {
    assert [rows][1..] == [] && rows + [] == rows;
  }

  lemma SingleSidedMonotone(source: seq<Byte>, created: bool, current: bool)
    ensures RowsMonotone(Concat(SingleSidedChunk(source, created)), current)
  {
    SingleSidedRows(source, created);
  }

  lemma NormalizedMade(file: RawFile, oldSource: seq<Byte>, newSource: seq<Byte>)
    requires !IsLineOriented(file.language) && NormalizeFile(file, oldSource, newSource).Ok? && file.chunks != []
    ensures var p := NormalizeFile(file, oldSource, newSource).value;
            AllMade(file, p.chunks, SourceLines(oldSource), SourceLines(newSource))
  {
    FileAcceptedWhen(file, oldSource, newSource);
  }

  lemma MadeFlat(file: RawFile, chunks: seq<seq<Row>>, oldLines: seq<seq<Byte>>, newLines: seq<seq<Byte>>, current: bool)
    requires AllMade(file, chunks, oldLines, newLines)
    ensures Monotone(Numbers(Concat(chunks)), current) <==> InOrder(file, current)
  {
    NumbersMonotone(Concat(chunks), current);
    ConcatMonotone(chunks, current);
    MadeInOrder(file, chunks, oldLines, newLines, current);
  }

  lemma WithoutChunks(file: RawFile, oldSource: seq<Byte>, newSource: seq<Byte>, current: bool)
    requires !IsLineOriented(file.language) && NormalizeFile(file, oldSource, newSource).Ok? && file.chunks == []
    ensures Monotone(NormalizeFile(file, oldSource, newSource).value.alignment, current)
  {
    var p := NormalizeFile(file, oldSource, newSource).value;
    FlatNumbers(file, oldSource, newSource, p);
    NumbersMonotone(Concat(p.chunks), current);
    SingleSidedMonotone(oldSource, false, current);
    SingleSidedMonotone(newSource, true, current);
  }

  lemma FlatNumbers(file: RawFile, oldSource: seq<Byte>, newSource: seq<Byte>, p: Presentation)
    requires NormalizeFile(file, oldSource, newSource) == Ok(p)
    ensures p.alignment == Numbers(Concat(p.chunks))
  {
    assert Numbers(Concat([])) == [];
  }

  /** When the flat alignment of an accepted file goes forward on a side: exactly when the raw line numbers are in order
      inside the chunks, as the alignment lists them, and from each chunk to the later ones. */
  lemma FlatMonotoneWhen(file: RawFile, oldSource: seq<Byte>, newSource: seq<Byte>, current: bool)
    requires !IsLineOriented(file.language) && NormalizeFile(file, oldSource, newSource).Ok?
    ensures Monotone(NormalizeFile(file, oldSource, newSource).value.alignment, current) <==> InOrder(file, current)
  {
    if file.chunks == [] {
      WithoutChunks(file, oldSource, newSource, current);
    } else {
      var p := NormalizeFile(file, oldSource, newSource).value;
      FlatNumbers(file, oldSource, newSource, p);
      NormalizedMade(file, oldSource, newSource);
      MadeFlat(file, p.chunks, SourceLines(oldSource), SourceLines(newSource), current);
    }
  }

  /** A monotone upstream alignment leaves only the order of the chunks to ask. */
  lemma MonotoneAlignmentFlat(file: RawFile, oldSource: seq<Byte>, newSource: seq<Byte>, current: bool)
    requires !IsLineOriented(file.language) && NormalizeFile(file, oldSource, newSource).Ok?
    requires Monotone(file.alignedLines, current)
    ensures Monotone(NormalizeFile(file, oldSource, newSource).value.alignment, current) <==>
            ChunksInOrder(file.chunks, current)
  {
    FlatMonotoneWhen(file, oldSource, newSource, current);
    forall c | 0 <= c < |file.chunks| ensures WithinOrder(file.chunks[c], file.alignedLines, current) {
      MonotoneWithin(file.chunks[c], file.alignedLines, current);
    }
  }

  /* ---- Text lines and single-sided files ---- */

  function Joined(lines: seq<seq<Byte>>): seq<Byte> {
    if lines == [] then []
    else Joined(lines[..|lines| - 1]) + (if |lines| > 1 then [10] else []) + lines[|lines| - 1]
  }

  lemma JoinedSnoc(lines: seq<seq<Byte>>, line: seq<Byte>)
    ensures Joined(lines + [line]) == Joined(lines) + (if lines != [] then [10] else []) + line
  {
    assert (lines + [line])[..|lines|] == lines;
  }

  lemma JoinedGrows(head: seq<seq<Byte>>, last: seq<Byte>, byte: Byte)
    ensures Joined(head + [last + [byte]]) == Joined(head + [last]) + [byte]
  {
    JoinedSnoc(head, last);
    JoinedSnoc(head, last + [byte]);
    var before := Joined(head) + if head != [] then [10] else [];
    assert before + (last + [byte]) == before + last + [byte];
  }

  /** The lines of a source joined by newlines are the source, and none of them holds a newline. */
  lemma {:induction false} SourceLinesJoin(source: seq<Byte>)
    ensures Joined(SourceLines(source)) == source
    ensures forall line | line in SourceLines(source) :: 10 !in line
  {
    if source == [] {
      assert SourceLines(source)[..0] == [];
    } else {
      var init, byte := source[..|source| - 1], source[|source| - 1];
      var before := SourceLines(init);
      SourceLinesJoin(init);
      assert source == init + [byte];
      if byte == NEWLINE {
        JoinedSnoc(before, []);
      } else {
        var head, last := before[..|before| - 1], before[|before| - 1];
        assert before == head + [last] && last in before;
        JoinedGrows(head, last, byte);
      }
    }
  }

  /** A created or deleted file without rows shows each of its lines once, numbered from one. */
  lemma SingleSidedShowsSource(source: seq<Byte>, created: bool)
    ensures var rows := Concat(SingleSidedChunk(source, created));
            && |rows| == |TextLines(source)|
            && forall k | 0 <= k < |rows| ::
                 var cell := if created then rows[k].current else rows[k].base;
                 && cell.Some? && cell.value.text == SourceLines(source)[k] && cell.value.spans == []
                 && (k + 1 <= U32_MAX ==> cell.value.line == k + 1)
                 && (if created then rows[k].base else rows[k].current).None?
  {
    SingleSidedRows(source, created);
    assert forall k | 0 <= k < |TextLines(source)| :: TextLines(source)[k] == SourceLines(source)[k];
  }

  /* ---- Which backend, which status, which rows ---- */

  /** The same letters, upper case or lower case; `word` is in lower case. */
  predicate Spells(name: string, word: string) {
    |name| == |word| &&
    forall i | 0 <= i < |word| :: name[i] == word[i] || ('A' <= name[i] <= 'Z' && name[i] as int + 32 == word[i] as int)
  }

  predicate AllWhite(s: string) {
    forall c | c in s :: IsWhite(c)
  }

  predicate NamesTextBackend(name: string) {
    Spells(name, "text") || Spells(name, "binary") || Spells(name, "plaintext") || (|name| >= 5 && Spells(name[..5], "text "))
  }

  lemma {:induction false} LowerAt(s: string)
    ensures |Lower(s)| == |s|
    ensures forall i | 0 <= i < |s| :: Lower(s)[i] == if 'A' <= s[i] <= 'Z' then (s[i] as int + 32) as char else s[i]
  {
    if s != [] {
      LowerAt(s[1..]);
      assert forall i | 0 < i < |s| :: s[i] == s[1..][i - 1];
    }
  }

  lemma {:induction false} SpellsWhen(name: string, word: string)
    requires |name| == |word| && forall i | 0 <= i < |word| :: !('A' <= word[i] <= 'Z')
    ensures Lower(name) == word <==> Spells(name, word)
  {
    LowerAt(name);
    forall i | 0 <= i < |word|
      ensures Lower(name)[i] == word[i] <==>
              name[i] == word[i] || ('A' <= name[i] <= 'Z' && name[i] as int + 32 == word[i] as int)
    {
    }
    if Spells(name, word) {
      assert forall i | 0 <= i < |word| :: Lower(name)[i] == word[i];
    }
  }

  lemma LowerCount(s: string)
    ensures |Lower(s)| == |s|
  {
    LowerAt(s);
  }

  lemma LowerPrefix(s: string, n: nat)
    requires n <= |s|
    ensures |Lower(s)| == |s| && Lower(s)[..n] == Lower(s[..n])
  {
    LowerAt(s);
    LowerAt(s[..n]);
  }

  /** A word in lower case is what a name has in lower case exactly when the name spells it. */
  lemma NameSpells(name: string, word: string)
    requires forall i | 0 <= i < |word| :: !('A' <= word[i] <= 'Z')
    ensures Lower(name) == word <==> Spells(name, word)
    ensures word <= Lower(name) <==> |name| >= |word| && Spells(name[..|word|], word)
  {
    LowerCount(name);
    if |name| == |word| {
      SpellsWhen(name, word);
    }
    if |name| >= |word| {
      SpellsWhen(name[..|word|], word);
      LowerPrefix(name, |word|);
    }
  }

  /** A text cut into white space, a core that neither begins nor ends with any, and white space. */
  predicate IsTrimmed(pre: string, core: string, suf: string) {
    AllWhite(pre) && AllWhite(suf) && (core == "" || (!IsWhite(core[0]) && !IsWhite(core[|core| - 1])))
  }

  lemma MoreAfter(pre: string, core: string, suf: string, s: string)
    requires s != "" && s[..|s| - 1] == pre + (core + suf)
    ensures s == pre + (core + (suf + [s[|s| - 1]]))
  {
    assert s == s[..|s| - 1] + [s[|s| - 1]];
  }

  lemma {:induction false} TrimCuts(s: string) returns (pre: string, suf: string)
    ensures IsTrimmed(pre, Trim(s), suf) && s == pre + (Trim(s) + suf)
    decreases |s|
  {
    if s != [] && IsWhite(s[0]) {
      pre, suf := TrimCuts(s[1..]);
      pre := [s[0]] + pre;
      assert s == [s[0]] + s[1..];
    } else if s != [] && IsWhite(s[|s| - 1]) {
      pre, suf := TrimCuts(s[..|s| - 1]);
      MoreAfter(pre, Trim(s), suf, s);
      suf := suf + [s[|s| - 1]];
    } else {
      pre, suf := "", "";
    }
  }

  lemma {:induction false} TrimIs(pre: string, core: string, suf: string)
    requires IsTrimmed(pre, core, suf)
    ensures core != "" ==> Trim(pre + (core + suf)) == core
    decreases |pre| + |suf|
  {
    var s := pre + (core + suf);
    if core == "" {
    } else if pre != "" {
      assert s[0] == pre[0] && s[1..] == pre[1..] + (core + suf);
      TrimIs(pre[1..], core, suf);
    } else if suf != "" {
      assert s[0] == core[0] && s[|s| - 1] == suf[|suf| - 1] && s[..|s| - 1] == "" + (core + suf[..|suf| - 1]);
      TrimIs("", core, suf[..|suf| - 1]);
    } else {
      assert s == core;
    }
  }

  /** Which languages are shown line by line, whatever white space stands around the name. */
  lemma LineOrientedWhen(pre: string, core: string, suf: string)
    requires IsTrimmed(pre, core, suf) && core != ""
    ensures IsLineOriented(pre + (core + suf)) <==> NamesTextBackend(core)
  {
    TrimIs(pre, core, suf);
    NameSpells(core, "text");
    NameSpells(core, "binary");
    NameSpells(core, "plaintext");
    NameSpells(core, "text ");
  }

  /** How many rows the first `c` chunks have. */
  function RowsBefore(chunks: seq<seq<Row>>, c: nat): nat
    requires c <= |chunks|
  {
    if c == 0 then 0 else RowsBefore(chunks, c - 1) + |chunks[c - 1]|
  }

  lemma {:induction false} ConcatAt(chunks: seq<seq<Row>>, c: nat, k: nat)
    requires c < |chunks| && k < |chunks[c]|
    ensures RowsBefore(chunks, c) + k < |Concat(chunks)| && Concat(chunks)[RowsBefore(chunks, c) + k] == chunks[c][k]
  {
    if c > 0 {
      ConcatAt(chunks[1..], c - 1, k);
      RowsBeforeTail(chunks, c);
    }
  }

  lemma {:induction false} RowsBeforeTail(chunks: seq<seq<Row>>, c: nat)
    requires 0 < c <= |chunks|
    ensures RowsBefore(chunks, c) == |chunks[0]| + RowsBefore(chunks[1..], c - 1)
  {
    if c > 1 {
      RowsBeforeTail(chunks, c - 1);
    }
  }

  lemma {:induction false} ConcatCount(chunks: seq<seq<Row>>)
    ensures |Concat(chunks)| == RowsBefore(chunks, |chunks|)
  {
    if chunks != [] {
      ConcatCount(chunks[1..]);
      RowsBeforeTail(chunks, |chunks|);
    }
  }

  predicate NamesRow(pair: Pair, row: Row) {
    && pair.0 == (if row.base == None then None else Some(row.base.value.line))
    && pair.1 == (if row.current == None then None else Some(row.current.value.line))
  }

  predicate NamesRows(pairs: seq<Pair>, chunks: seq<seq<Row>>) {
    && |pairs| == RowsBefore(chunks, |chunks|)
    && forall c, k | 0 <= c < |chunks| && 0 <= k < |chunks[c]| ::
         RowsBefore(chunks, c) + k < |pairs| && NamesRow(pairs[RowsBefore(chunks, c) + k], chunks[c][k])
  }

  lemma ConcatNumbers(chunks: seq<seq<Row>>)
    ensures NamesRows(Numbers(Concat(chunks)), chunks)
  {
    ConcatCount(chunks);
    forall c, k | 0 <= c < |chunks| && 0 <= k < |chunks[c]|
      ensures RowsBefore(chunks, c) + k < |Concat(chunks)|
      ensures NamesRow(Numbers(Concat(chunks))[RowsBefore(chunks, c) + k], chunks[c][k])
    {
      ConcatAt(chunks, c, k);
    }
  }

  /** The flat alignment names the lines of all rows, chunk after chunk. */
  lemma AlignmentNamesRows(file: RawFile, oldSource: seq<Byte>, newSource: seq<Byte>)
    requires NormalizeFile(file, oldSource, newSource).Ok?
    ensures var p := NormalizeFile(file, oldSource, newSource).value; NamesRows(p.alignment, p.chunks)
  {
    var p := NormalizeFile(file, oldSource, newSource).value;
    ConcatNumbers(p.chunks);
    FlatNumbers(file, oldSource, newSource, p);
  }

  /** The rows show all lines of the source, once each and numbered from one, on one side only. An empty last line after a
      final newline is no line. */
  predicate ShowsWhole(source: seq<Byte>, rows: seq<Row>, created: bool) {
    var lines := SourceLines(source);
    && |rows| == (if lines[|lines| - 1] == [] then |lines| - 1 else |lines|)
    && forall k | 0 <= k < |rows| ::
         var shown := Some(Cell(if k + 1 > 0xFFFF_FFFF then 0xFFFF_FFFF else k + 1, lines[k], []));
         rows[k] == if created then Row(None, shown) else Row(shown, None)
  }

  lemma SingleSidedWhole(source: seq<Byte>, created: bool)
    ensures ShowsWhole(source, Concat(SingleSidedChunk(source, created)), created)
    ensures |SingleSidedChunk(source, created)| <= 1
  {
    SingleSidedRows(source, created);
  }

  lemma StatusMeans(name: string)
    ensures ParseStatus(name) == if name in STATUS_NAMES then Ok(STATUS_NAMES[name]) else Err(UnknownStatus)
  {
  }

  /** What a structural result without chunks shows. */
  predicate ShowsAlone(status: string, chunks: seq<seq<Row>>, oldSource: seq<Byte>, newSource: seq<Byte>) {
    if status == "created" then |chunks| <= 1 && ShowsWhole(newSource, Concat(chunks), true)
    else if status == "deleted" then |chunks| <= 1 && ShowsWhole(oldSource, Concat(chunks), false)
    else chunks == []
  }

  lemma AloneShows(name: string, status: Status, oldSource: seq<Byte>, newSource: seq<Byte>)
    requires ParseStatus(name) == Ok(status)
    ensures ShowsAlone(name, ShownChunks(status, [], oldSource, newSource), oldSource, newSource)
  {
    if name == "created" {
      SingleSidedWhole(newSource, true);
    } else if name == "deleted" {
      SingleSidedWhole(oldSource, false);
    }
  }

  /** What a result says of a file as a whole: its status by name, a text backend without rows, and, for a structural result
      without chunks, a created file as its new source on the new side, a deleted one as its old source on the old side, and
      any other one as nothing. */
  lemma FileMeans(file: RawFile, oldSource: seq<Byte>, newSource: seq<Byte>)
    ensures var r := NormalizeFile(file, oldSource, newSource);
            if file.status !in STATUS_NAMES then r == Err(UnknownStatus)
            else if IsLineOriented(file.language)
            then r == Ok(Presentation(file.language, STATUS_NAMES[file.status], true, [], []))
            else
              r.Ok? ==>
                && r.value.status == STATUS_NAMES[file.status] && r.value.language == file.language && !r.value.lineOriented
                && (file.chunks == [] ==> ShowsAlone(file.status, r.value.chunks, oldSource, newSource))
  {
    StatusMeans(file.status);
    if file.status in STATUS_NAMES {
      AloneShows(file.status, STATUS_NAMES[file.status], oldSource, newSource);
    }
  }

  /** A chunk of one row is accepted even when the alignment does not list that row. */
  lemma LoneRowIsNotLookedUp()
    ensures var row := RawRow(Some(RawCell(0, [])), None);
            var file := RawFile([(None, Some(0))], [[row]], "Rust", "changed");
            && KeyOf(row) !in file.alignedLines && NormalizeFile(file, [], []).Ok?
  {
    var file := RawFile([(None, Some(0))], [[RawRow(Some(RawCell(0, [])), None)]], "Rust", "changed");
    RustIsStructural();
    assert SourceLines([]) == [[]];
    LoneRowAcceptable();
    FileAcceptedWhen(file, [], []);
  }

  lemma LoneRowAcceptable()
    ensures var file := RawFile([(None, Some(0))], [[RawRow(Some(RawCell(0, [])), None)]], "Rust", "changed");
            file.status in STATUS_NAMES && FileAcceptable(file, [[]], [[]])
  {
    assert Acceptable(RawCell(0, []), [[]]);
  }

  const SECOND_LINE := RawRow(Some(RawCell(1, [])), None)
  const FIRST_LINE := RawRow(Some(RawCell(0, [])), None)

  /** A file of two empty lines whose second line is in the first chunk. */
  const SWAPPED := RawFile([(Some(0), None), (Some(1), None)], [[SECOND_LINE], [FIRST_LINE]], "Rust", "changed")

  lemma SwappedAccepted()
    ensures NormalizeFile(SWAPPED, [NEWLINE], []).Ok?
    ensures var p, positions := NormalizeFile(SWAPPED, [NEWLINE], []).value, PositionsOf(SWAPPED.alignedLines);
            && !p.lineOriented && |p.chunks| == 2
            && ChunkFits([SECOND_LINE], p.chunks[0], positions, [[], []], SourceLines([]))
            && ChunkFits([FIRST_LINE], p.chunks[1], positions, [[], []], SourceLines([]))
  {
    RustIsStructural();
    NewlineLines();
    assert Acceptable(SECOND_LINE.lhs.value, [[], []]) && Acceptable(FIRST_LINE.lhs.value, [[], []]);
    FileAcceptedWhen(SWAPPED, [NEWLINE], []);
  }

  /** Two chunks in the wrong order: the upstream alignment is monotone, and the flat alignment goes back from 2 to 1. */
  lemma ChunksOutOfOrder()
    ensures Monotone(SWAPPED.alignedLines, false) && NormalizeFile(SWAPPED, [NEWLINE], []).Ok?
    ensures NormalizeFile(SWAPPED, [NEWLINE], []).value.alignment == [(Some(2), None), (Some(1), None)]
    ensures !Monotone([(Some(2), None), (Some(1), None)], false)
  {
    SwappedAccepted();
    SwappedAlignment();
    GoesBack([(Some(2), None), (Some(1), None)]);
  }

  lemma SwappedAlignment()
    requires NormalizeFile(SWAPPED, [NEWLINE], []).Ok?
    ensures NormalizeFile(SWAPPED, [NEWLINE], []).value.alignment == [(Some(2), None), (Some(1), None)]
  {
    SwappedAccepted();
    RustIsStructural();
    FlatNumbers(SWAPPED, [NEWLINE], [], NormalizeFile(SWAPPED, [NEWLINE], []).value);
    SwappedNumbers(NormalizeFile(SWAPPED, [NEWLINE], []).value.chunks, PositionsOf(SWAPPED.alignedLines), [[], []],
                   SourceLines([]));
  }

  lemma SwappedNumbers(chunks: seq<seq<Row>>, positions: map<Pair, nat>, oldLines: seq<seq<Byte>>, newLines: seq<seq<Byte>>)
    requires |chunks| == 2 && ChunkFits([SECOND_LINE], chunks[0], positions, oldLines, newLines)
    requires ChunkFits([FIRST_LINE], chunks[1], positions, oldLines, newLines)
    ensures Numbers(Concat(chunks)) == [(Some(2), None), (Some(1), None)]
  {
    TwoLoneRows(SECOND_LINE, FIRST_LINE, chunks[0], chunks[1], positions, oldLines, newLines);
    assert chunks == [chunks[0], chunks[1]];
    FlatOfTwo(chunks[0], chunks[1]);
  }

  lemma GoesBack(pairs: seq<Pair>)
    requires |pairs| == 2 && pairs[0] == (Some(2), None) && pairs[1] == (Some(1), None)
    ensures !Monotone(pairs, false)
  {
    assert OnSide(pairs[0], false) == Some(2) && OnSide(pairs[1], false) == Some(1);
  }

  lemma FlatOfTwo(a: seq<Row>, b: seq<Row>)
    requires |a| == 1 && |b| == 1
    ensures Numbers(Concat([a, b])) == [NumbersOf(a[0]), NumbersOf(b[0])]
  {
    TwoChunks(a, b);
    assert (a + b)[0] == a[0] && (a + b)[1] == b[0];
  }

  lemma RustIsStructural()
    ensures !IsLineOriented("Rust")
  {
    assert Trim("Rust") == "Rust";
    LowerAt("Rust");
    assert Lower("Rust")[0] == 'r';
  }

  lemma NewlineLines()
    ensures SourceLines([NEWLINE]) == [[], []]
  {
    assert [NEWLINE][..0] == [];
  }

  lemma TwoLoneRows(first: RawRow, second: RawRow, a: seq<Row>, b: seq<Row>, positions: map<Pair, nat>,
                    oldLines: seq<seq<Byte>>, newLines: seq<seq<Byte>>)
    requires ChunkFits([first], a, positions, oldLines, newLines) && ChunkFits([second], b, positions, oldLines, newLines)
    ensures |a| == 1 && |b| == 1 && RowFits(first, a[0], oldLines, newLines) && RowFits(second, b[0], oldLines, newLines)
  {
    SameMembers(SortBy([first], RankLeq(positions)), [first]);
    SameMembers(SortBy([second], RankLeq(positions)), [second]);
    assert SortBy([first], RankLeq(positions))[0] in [first] && SortBy([second], RankLeq(positions))[0] in [second];
  }

  lemma TwoChunks(a: seq<Row>, b: seq<Row>)
    ensures Concat([a, b]) == a + b
  {
    assert [a, b][1..] == [b] && [b][1..] == [];
    assert Concat([b]) == b + [] == b;
  }
}
