/** The canonical, side-aware diff document (crates/diff/src/lib.rs) and its construction
    from two sources and a grouped edit script. */
module Document {
  import opened Wrappers

  datatype Side = Old | New

  function Other(side: Side): Side {
    if side.Old? then New else Old
  }

  datatype LineKind = Context | Addition | Removal

  /** One logical source line and whether a newline terminates it. */
  datatype Line = Line(text: string, newline: bool)

  datatype Cell = Cell(side: Side, lineNumber: nat, kind: LineKind, sourceLineIndex: nat, text: string,
                       hasTrailingNewline: bool)

  datatype UnifiedRow = UnifiedRow(kind: LineKind, base: Option<Cell>, current: Option<Cell>) {
    function CellOn(side: Side): Option<Cell> {
      if side.Old? then base else current
    }
  }

  datatype HunkHeader = HunkHeader(oldStart: nat, oldCount: nat, newStart: nat, newCount: nat, context: Option<string>) {
    function StartOn(side: Side): nat {
      if side.Old? then oldStart else newStart
    }

    function CountOn(side: Side): nat {
      if side.Old? then oldCount else newCount
    }
  }

  datatype Hunk = Hunk(header: HunkHeader, unifiedRows: seq<UnifiedRow>)

  datatype SourceDocument = SourceDocument(content: string) {
    function Lines(): seq<Line> { SplitLines(content) }

    function LineCount(): nat { |Lines()| }

    predicate HasFinalNewline() { content == "" || content[|content| - 1] == '\n' }
  }

  datatype DiffDocument = DiffDocument(base: SourceDocument, current: SourceDocument, hunks: seq<Hunk>,
                                       changedOldLines: set<nat>, changedNewLines: set<nat>) {
    function SourceOn(side: Side): SourceDocument {
      if side.Old? then base else current
    }

    function ChangedOn(side: Side): set<nat> {
      if side.Old? then changedOldLines else changedNewLines
    }
  }

  /* ---- Source lines ---- */

  /** Position of the first newline, or the length when there is none. */
  function LineEnd(s: string): (end: nat)
    ensures end <= |s|
    ensures '\n' !in s[..end]
    ensures end < |s| ==> s[end] == '\n'
  {
    if s == "" then 0
    else if s[0] == '\n' then 0
    else
      var rest := LineEnd(s[1..]);
      assert s[..rest + 1] == [s[0]] + s[1..][..rest];
      rest + 1
  }

  function SplitLines(content: string): (lines: seq<Line>)
  {
    if content == "" then []
    else
      var end := LineEnd(content);
      if end < |content|
      then [Line(content[..end], true)] + SplitLines(content[end + 1..])
      else [Line(content, false)]
  }

  function LineText(line: Line): string {
    line.text + if line.newline then "\n" else ""
  }

  function JoinLines(lines: seq<Line>): string {
    if lines == [] then "" else LineText(lines[0]) + JoinLines(lines[1..])
  }

  /** Splitting loses nothing: the lines spell out the content byte for byte. */
  lemma {:induction false} SplitThenJoin(content: string)
    ensures JoinLines(SplitLines(content)) == content
    decreases |content|
  {
    if content != "" {
      var end := LineEnd(content);
      if end < |content| {
        SplitThenJoin(content[end + 1..]);
        JoinCons(Line(content[..end], true), SplitLines(content[end + 1..]));
        CutAt(content, end);
      } else {
        JoinCons(Line(content, false), []);
      }
    }
  }

  lemma CutAt(content: string, end: nat)
    requires end < |content| && content[end] == '\n'
    ensures content == LineText(Line(content[..end], true)) + content[end + 1..]
  {
  }

  lemma JoinCons(head: Line, rest: seq<Line>)
    ensures JoinLines([head] + rest) == LineText(head) + JoinLines(rest)
  {
    assert ([head] + rest)[1..] == rest;
  }

  /** Lines that can stand where they are: no newline inside, and only the last may go without one. */
  predicate Separable(lines: seq<Line>) {
    forall k | 0 <= k < |lines| ::
      && '\n' !in lines[k].text
      && (!lines[k].newline ==> k == |lines| - 1 && lines[k].text != "")
  }

  lemma {:induction false} LineEndAfter(text: string, rest: string)
    requires '\n' !in text
    ensures LineEnd(text + "\n" + rest) == |text|
  {
    if text != "" {
      assert (text + "\n" + rest)[1..] == text[1..] + "\n" + rest;
      LineEndAfter(text[1..], rest);
    }
  }

  lemma SplitTerminated(text: string, rest: string)
    requires '\n' !in text
    ensures SplitLines(text + "\n" + rest) == [Line(text, true)] + SplitLines(rest)
  {
    LineEndAfter(text, rest);
    TextBefore(text, rest);
  }

  lemma TextBefore(text: string, rest: string)
    ensures (text + "\n" + rest)[..|text|] == text && (text + "\n" + rest)[|text| + 1..] == rest
  {
  }

  lemma {:induction false} SplitOpen(text: string)
    requires '\n' !in text
    ensures LineEnd(text) == |text|
  {
    if text != "" {
      SplitOpen(text[1..]);
    }
  }

  lemma JoinThenSplitCons(head: Line, rest: seq<Line>)
    requires '\n' !in head.text && (!head.newline ==> rest == [] && head.text != "")
    requires SplitLines(JoinLines(rest)) == rest
    ensures SplitLines(JoinLines([head] + rest)) == [head] + rest
  {
    JoinCons(head, rest);
    if head.newline {
      SplitTerminated(head.text, JoinLines(rest));
    } else {
      assert head.text + "" + "" == head.text;
      SplitOpen(head.text);
    }
  }

  lemma {:induction false} JoinThenSplit(lines: seq<Line>)
    requires Separable(lines)
    ensures SplitLines(JoinLines(lines)) == lines
  {
    if lines != [] {
      JoinThenSplit(lines[1..]);
      assert lines == [lines[0]] + lines[1..];
      JoinThenSplitCons(lines[0], lines[1..]);
    }
  }

  /** Every line but the last ends in a newline, and the last one does exactly when the content does. */
  lemma {:induction false} NewlineFlags(source: SourceDocument, k: nat)
    requires k < source.LineCount()
    ensures source.Lines()[k].newline == (k + 1 < source.LineCount() || source.HasFinalNewline())
    decreases |source.content|
  {
    var content := source.content;
    var end := LineEnd(content);
    if end < |content| {
      var rest := SourceDocument(content[end + 1..]);
      if k > 0 {
        NewlineFlags(rest, k - 1);
        assert rest.content[|rest.content| - 1] == content[|content| - 1];
      } else if rest.content != "" {
        assert rest.LineCount() > 0;
      }
    } else {
      assert content[|content| - 1] in content[..end];
    }
  }

  /* ---- Edit scripts: the line-level output of the diff library, taken as an input ---- */

  datatype Tag = Equal | Delete | Insert

  datatype Change = Change(tag: Tag, oldIndex: Option<nat>, newIndex: Option<nat>, value: string) {
    function IndexOn(side: Side): Option<nat> {
      if side.Old? then oldIndex else newIndex
    }
  }

  /** A stretch of lines left out of the groups, then a group. */
  datatype Segment = Segment(gap: seq<Change>, group: seq<Change>)

  datatype Script = Script(segments: seq<Segment>, tail: seq<Change>)

  function LineOf(value: string): Line {
    if value != "" && value[|value| - 1] == '\n' then Line(value[..|value| - 1], true) else Line(value, false)
  }

  /** Whether a change carries a line of the given side. */
  predicate Has(tag: Tag, side: Side) {
    match tag
    case Equal => true
    case Delete => side.Old?
    case Insert => side.New?
  }

  function ChangedTag(side: Side): Tag {
    if side.Old? then Delete else Insert
  }

  /** Number of lines of one side that a stretch of changes covers. */
  function Span(changes: seq<Change>, side: Side): nat {
    if changes == [] then 0 else Step(changes[0], side) + Span(changes[1..], side)
  }

  lemma {:induction false} SpanOfConcat(a: seq<Change>, b: seq<Change>, side: Side)
    ensures Span(a + b, side) == Span(a, side) + Span(b, side)
  {
    if a == [] {
      assert a + b == b;
    } else {
      assert (a + b)[1..] == a[1..] + b;
      SpanOfConcat(a[1..], b, side);
    }
  }

  /** One change, read with `p` lines of the side already consumed. A one-sided change may name the
      current position of the other side or nothing at all. */
  predicate ChangeAt(c: Change, side: Side, lines: seq<Line>, p: nat) {
    if Has(c.tag, side)
    then p < |lines| && c.IndexOn(side) == Some(p) && LineOf(c.value) == lines[p]
    else c.IndexOn(side) == None || c.IndexOn(side) == Some(p)
  }

  /** The changes walk through the lines of one side contiguously, starting after `p` of them. */
  predicate Walks(changes: seq<Change>, side: Side, lines: seq<Line>, p: nat) {
    changes == [] ||
    (ChangeAt(changes[0], side, lines, p) && Walks(changes[1..], side, lines, p + Step(changes[0], side)))
  }

  function Step(c: Change, side: Side): nat {
    if Has(c.tag, side) then 1 else 0
  }

  lemma {:induction false} WalksConcat(a: seq<Change>, b: seq<Change>, side: Side, lines: seq<Line>, p: nat)
    ensures Walks(a + b, side, lines, p) <==> Walks(a, side, lines, p) && Walks(b, side, lines, p + Span(a, side))
  {
    if a == [] {
      assert a + b == b;
    } else {
      assert (a + b)[1..] == a[1..] + b;
      WalksConcat(a[1..], b, side, lines, p + Step(a[0], side));
    }
  }

  /** The changes before, at and after position `k`. */
  lemma WalksAround(changes: seq<Change>, side: Side, lines: seq<Line>, p: nat, k: nat)
    requires k < |changes|
    requires Walks(changes, side, lines, p)
    ensures Walks(changes[..k], side, lines, p)
    ensures ChangeAt(changes[k], side, lines, p + Span(changes[..k], side))
    ensures Walks(changes[k + 1..], side, lines, p + Span(changes[..k], side) + Step(changes[k], side))
  {
    assert changes == changes[..k] + changes[k..];
    WalksConcat(changes[..k], changes[k..], side, lines, p);
    assert changes[k..][1..] == changes[k + 1..];
  }

  lemma SpanAround(changes: seq<Change>, side: Side, k: nat)
    requires k < |changes|
    ensures Span(changes, side) ==
            Span(changes[..k], side) + Step(changes[k], side) + Span(changes[k + 1..], side)
    ensures Span(changes[..k + 1], side) == Span(changes[..k], side) + Step(changes[k], side)
  {
    assert changes == changes[..k] + changes[k..];
    SpanOfConcat(changes[..k], changes[k..], side);
    assert changes[k..][1..] == changes[k + 1..];
    assert changes[..k + 1] == changes[..k] + [changes[k]];
    SpanOfConcat(changes[..k], [changes[k]], side);
  }

  function Flatten(segments: seq<Segment>): seq<Change> {
    if segments == [] then [] else segments[0].gap + segments[0].group + Flatten(segments[1..])
  }

  function Whole(script: Script): seq<Change> {
    Flatten(script.segments) + script.tail
  }

  function Groups(segments: seq<Segment>): seq<seq<Change>> {
    if segments == [] then [] else [segments[0].group] + Groups(segments[1..])
  }

  predicate AllEqual(changes: seq<Change>) {
    forall c | c in changes :: c.tag.Equal?
  }

  predicate NoEqual(changes: seq<Change>) {
    forall c | c in changes :: !c.tag.Equal?
  }

  /** What the diff library promises: an aligned script of both sources, whose lines outside the groups
      are equal, whose groups are separated by such lines, and in which a group lacks equal lines only
      when there are none to show. */
  predicate Conforms(script: Script, base: SourceDocument, current: SourceDocument) {
    && Walks(Whole(script), Old, base.Lines(), 0)
    && Walks(Whole(script), New, current.Lines(), 0)
    && Span(Whole(script), Old) == base.LineCount()
    && Span(Whole(script), New) == current.LineCount()
    && AllEqual(script.tail)
    && (forall k | 0 <= k < |script.segments| :: AllEqual(script.segments[k].gap))
    && (forall k | 0 < k < |script.segments| :: script.segments[k].gap != [])
    && (forall k | 0 <= k < |script.segments| ::
          script.segments[k].group != [] && NoEqual(script.segments[k].group) ==> NoEqual(Whole(script)))
  }

  /* ---- Building the document ---- */

  function MakeCell(side: Side, index: nat, kind: LineKind, line: Line): Cell {
    Cell(side, index + 1, kind, index, line.text, line.newline)
  }

  function KindOf(tag: Tag): LineKind {
    match tag
    case Equal => Context
    case Delete => Removal
    case Insert => Addition
  }

  function CellOf(c: Change, side: Side): Option<Cell> {
    if Has(c.tag, side)
    then Some(MakeCell(side, c.IndexOn(side).GetOr(0), KindOf(c.tag), LineOf(c.value)))
    else None
  }

  function RowOf(c: Change): UnifiedRow {
    UnifiedRow(KindOf(c.tag), CellOf(c, Old), CellOf(c, New))
  }

  function RowsOf(group: seq<Change>): (rows: seq<UnifiedRow>)
    ensures |rows| == |group|
    ensures forall k | 0 <= k < |group| :: rows[k] == RowOf(group[k])
  {
    seq(|group|, k requires 0 <= k < |group| => RowOf(group[k]))
  }

  /** Line number of the first change of the group that has a line on the side. */
  function FirstLine(group: seq<Change>, side: Side): Option<nat> {
    if group == [] then None
    else if Has(group[0].tag, side) then Some(group[0].IndexOn(side).GetOr(0) + 1)
    else FirstLine(group[1..], side)
  }

  /** Where an empty range of the side starts: the position the first one-sided change of the other
      side names, or else the end of the source. */
  function EmptyStart(group: seq<Change>, side: Side, lineCount: nat): Option<nat> {
    if group == [] then None
    else if !Has(group[0].tag, side) then Some(group[0].IndexOn(side).GetOr(lineCount))
    else EmptyStart(group[1..], side, lineCount)
  }

  lemma {:induction false} FirstLineSnoc(group: seq<Change>, c: Change, side: Side)
    ensures FirstLine(group + [c], side) ==
            if FirstLine(group, side).Some? then FirstLine(group, side) else FirstLine([c], side)
  {
    if group == [] {
      assert group + [c] == [c];
    } else {
      assert (group + [c])[1..] == group[1..] + [c];
      FirstLineSnoc(group[1..], c, side);
    }
  }

  lemma {:induction false} EmptyStartSnoc(group: seq<Change>, c: Change, side: Side, lineCount: nat)
    ensures EmptyStart(group + [c], side, lineCount) ==
            if EmptyStart(group, side, lineCount).Some? then EmptyStart(group, side, lineCount)
            else EmptyStart([c], side, lineCount)
  {
    if group == [] {
      assert group + [c] == [c];
    } else {
      assert (group + [c])[1..] == group[1..] + [c];
      EmptyStartSnoc(group[1..], c, side, lineCount);
    }
  }

  function StartOf(group: seq<Change>, side: Side, lineCount: nat): nat {
    if Span(group, side) == 0 then EmptyStart(group, side, lineCount).GetOr(0) else FirstLine(group, side).GetOr(1)
  }

  function HeaderOf(group: seq<Change>, oldCount: nat, newCount: nat): HunkHeader {
    HunkHeader(StartOf(group, Old, oldCount), Span(group, Old), StartOf(group, New, newCount), Span(group, New), None)
  }

  function HunkOf(group: seq<Change>, oldCount: nat, newCount: nat): Hunk {
    Hunk(HeaderOf(group, oldCount, newCount), RowsOf(group))
  }

  /** Hunks of the non-empty groups, in order. */
  function HunksOf(groups: seq<seq<Change>>, oldCount: nat, newCount: nat): seq<Hunk> {
    if groups == [] then []
    else GroupHunks(groups[0], oldCount, newCount) + HunksOf(groups[1..], oldCount, newCount)
  }

  function GroupHunks(group: seq<Change>, oldCount: nat, newCount: nat): seq<Hunk> {
    if group == [] then [] else [HunkOf(group, oldCount, newCount)]
  }

  /** Line numbers of one side that some change in the list deletes or inserts. */
  function ChangedIn(changes: seq<Change>, side: Side): set<nat> {
    set c | c in changes && c.tag == ChangedTag(side) :: c.IndexOn(side).GetOr(0) + 1
  }

  function ChangedInGroups(groups: seq<seq<Change>>, side: Side): set<nat> {
    if groups == [] then {} else ChangedIn(groups[0], side) + ChangedInGroups(groups[1..], side)
  }

  function DocumentOf(oldContent: string, newContent: string, groups: seq<seq<Change>>): DiffDocument {
    var base, current := SourceDocument(oldContent), SourceDocument(newContent);
    DiffDocument(base, current, HunksOf(groups, base.LineCount(), current.LineCount()),
                 ChangedInGroups(groups, Old), ChangedInGroups(groups, New))
  }

  lemma {:induction false} ChangedInSnoc(changes: seq<Change>, c: Change, side: Side)
    ensures ChangedIn(changes + [c], side) ==
            ChangedIn(changes, side) + if c.tag == ChangedTag(side) then {c.IndexOn(side).GetOr(0) + 1} else {}
  {
    var appended := ChangedIn(changes + [c], side);
    forall n | n in appended
      ensures n in ChangedIn(changes, side) || (c.tag == ChangedTag(side) && n == c.IndexOn(side).GetOr(0) + 1)
    {
      var d :| d in changes + [c] && d.tag == ChangedTag(side) && n == d.IndexOn(side).GetOr(0) + 1;
    }
    forall n | n in ChangedIn(changes, side) ensures n in appended {
      var d :| d in changes && d.tag == ChangedTag(side) && n == d.IndexOn(side).GetOr(0) + 1;
      assert d in changes + [c];
    }
    assert c in changes + [c];
  }

  /** How one more change extends everything accumulated over a group. */
  lemma GroupSnoc(group: seq<Change>, c: Change, side: Side, lineCount: nat)
    ensures RowsOf(group + [c]) == RowsOf(group) + [RowOf(c)]
    ensures Span(group + [c], side) == Span(group, side) + Step(c, side)
    ensures FirstLine(group + [c], side) ==
            FirstLine(group, side).Else(if Has(c.tag, side) then Some(c.IndexOn(side).GetOr(0) + 1) else None)
    ensures EmptyStart(group + [c], side, lineCount) ==
            EmptyStart(group, side, lineCount).Else(if Has(c.tag, side) then
                None else Some(c.IndexOn(side).GetOr(lineCount)))
    ensures ChangedIn(group + [c], side) ==
            ChangedIn(group, side) + if c.tag == ChangedTag(side) then {c.IndexOn(side).GetOr(0) + 1} else {}
  {
    FirstLineSnoc(group, c, side);
    EmptyStartSnoc(group, c, side, lineCount);
    SpanOfConcat(group, [c], side);
    ChangedInSnoc(group, c, side);
  }

  /** What the loop over a group keeps count of. */
  datatype Tally = Tally(rows: seq<UnifiedRow>, oldStart: Option<nat>, newStart: Option<nat>, oldEmptyStart: Option<nat>,
                         newEmptyStart: Option<nat>, oldCount: nat, newCount: nat, changedOld: set<nat>, changedNew: set<nat>)

  function TallyOf(group: seq<Change>, oldLines: nat, newLines: nat): Tally {
    Tally(RowsOf(group), FirstLine(group, Old), FirstLine(group, New), EmptyStart(group, Old, oldLines),
          EmptyStart(group, New, newLines), Span(group, Old), Span(group, New), ChangedIn(group, Old), ChangedIn(group, New))
  }

  /** One more change counted, by its tag. */
  function Counted(t: Tally, c: Change, oldLines: nat, newLines: nat): Tally {
    var line := LineOf(c.value);
    match c.tag
    case Equal =>
      var oldIndex, newIndex := c.oldIndex.GetOr(0), c.newIndex.GetOr(0);
      var row := UnifiedRow(Context, Some(MakeCell(Old, oldIndex, Context, line)),
                            Some(MakeCell(New, newIndex, Context, line)));
      t.(rows := t.rows + [row], oldStart := t.oldStart.Else(Some(oldIndex + 1)),
         newStart := t.newStart.Else(Some(newIndex + 1)), oldCount := t.oldCount + 1, newCount := t.newCount + 1)
    case Delete =>
      var oldIndex := c.oldIndex.GetOr(0);
      var row := UnifiedRow(Removal, Some(MakeCell(Old, oldIndex, Removal, line)), None);
      t.(rows := t.rows + [row], oldStart := t.oldStart.Else(Some(oldIndex + 1)),
         newEmptyStart := t.newEmptyStart.Else(Some(c.newIndex.GetOr(newLines))),
         oldCount := t.oldCount + 1, changedOld := t.changedOld + {oldIndex + 1})
    case Insert =>
      var newIndex := c.newIndex.GetOr(0);
      var row := UnifiedRow(Addition, None, Some(MakeCell(New, newIndex, Addition, line)));
      t.(rows := t.rows + [row], newStart := t.newStart.Else(Some(newIndex + 1)),
         oldEmptyStart := t.oldEmptyStart.Else(Some(c.oldIndex.GetOr(oldLines))),
         newCount := t.newCount + 1, changedNew := t.changedNew + {newIndex + 1})
  }

  /** One side of two tallies, before and after a change. */
  predicate SideCounted(c: Change, side: Side, lineCount: nat, start0: Option<nat>, start: Option<nat>, empty0: Option<nat>,
                        empty: Option<nat>, count0: nat, count: nat, changed0: set<nat>, changed: set<nat>)
  {
    && start == (if Has(c.tag, side) then start0.Else(Some(c.IndexOn(side).GetOr(0) + 1)) else start0)
    && empty == (if Has(c.tag, side) then empty0 else empty0.Else(Some(c.IndexOn(side).GetOr(lineCount))))
    && count == (if Has(c.tag, side) then count0 + 1 else count0)
    && changed == (if c.tag == ChangedTag(side) then changed0 + {c.IndexOn(side).GetOr(0) + 1} else changed0)
  }

  lemma SideSnoc(group: seq<Change>, c: Change, side: Side, lineCount: nat)
    ensures SideCounted(c, side, lineCount, FirstLine(group, side), FirstLine(group + [c], side),
                        EmptyStart(group, side, lineCount), EmptyStart(group + [c], side, lineCount),
                        Span(group, side), Span(group + [c], side), ChangedIn(group, side), ChangedIn(group + [c], side))
  {
    GroupSnoc(group, c, side, lineCount);
  }

  lemma BothSidesCounted(t: Tally, u: Tally, c: Change, oldLines: nat, newLines: nat)
    requires u.rows == t.rows + [RowOf(c)]
    requires SideCounted(c, Old, oldLines, t.oldStart, u.oldStart, t.oldEmptyStart, u.oldEmptyStart, t.oldCount, u.oldCount,
                         t.changedOld, u.changedOld)
    requires SideCounted(c, New, newLines, t.newStart, u.newStart, t.newEmptyStart, u.newEmptyStart, t.newCount, u.newCount,
                         t.changedNew, u.changedNew)
    ensures u == Counted(t, c, oldLines, newLines)
  {
  }

  lemma TallySnoc(group: seq<Change>, c: Change, oldLines: nat, newLines: nat)
    ensures TallyOf(group + [c], oldLines, newLines) == Counted(TallyOf(group, oldLines, newLines), c, oldLines, newLines)
  {
    SideSnoc(group, c, Old, oldLines);
    SideSnoc(group, c, New, newLines);
    RowsSnoc(group, c);
    BothSidesCounted(TallyOf(group, oldLines, newLines), TallyOf(group + [c], oldLines, newLines), c, oldLines, newLines);
  }

  lemma RowsSnoc(group: seq<Change>, c: Change)
    ensures RowsOf(group + [c]) == RowsOf(group) + [RowOf(c)]
  {
  }

  lemma OneMore(group: seq<Change>, k: nat)
    requires k < |group|
    ensures group[..k] + [group[k]] == group[..k + 1]
  {
  }

  lemma EmptyTally(oldLines: nat, newLines: nat)
    ensures TallyOf([], oldLines, newLines) == Tally([], None, None, None, None, 0, 0, {}, {})
  {
  }

  /** One group: its rows, its header and the lines it changes, accumulated change by change. */
  method BuildGroup(group: seq<Change>, oldLines: nat, newLines: nat)
    returns (header: HunkHeader, rows: seq<UnifiedRow>, changedOld: set<nat>, changedNew: set<nat>)
    ensures rows == RowsOf(group)
    ensures header == HeaderOf(group, oldLines, newLines)
    ensures changedOld == ChangedIn(group, Old) && changedNew == ChangedIn(group, New)
  {
    var t := Tally([], None, None, None, None, 0, 0, {}, {});
    EmptyTally(oldLines, newLines);
    for k := 0 to |group|
      invariant t == TallyOf(group[..k], oldLines, newLines)
    {
      TallySnoc(group[..k], group[k], oldLines, newLines);
      OneMore(group, k);
      t := Counted(t, group[k], oldLines, newLines);
    }
    assert group[..|group|] == group;
    rows, changedOld, changedNew := t.rows, t.changedOld, t.changedNew;
    header := HunkHeader(if t.oldCount == 0 then t.oldEmptyStart.GetOr(0) else t.oldStart.GetOr(1), t.oldCount,
                         if t.newCount == 0 then t.newEmptyStart.GetOr(0) else t.newStart.GetOr(1), t.newCount, None);
  }

  lemma {:induction false} GroupsSnoc(groups: seq<seq<Change>>, group: seq<Change>, oldLines: nat, newLines: nat)
    ensures HunksOf(groups + [group], oldLines, newLines) ==
            HunksOf(groups, oldLines, newLines) + GroupHunks(group, oldLines, newLines)
    ensures ChangedInGroups(groups + [group], Old) == ChangedInGroups(groups, Old) + ChangedIn(group, Old)
    ensures ChangedInGroups(groups + [group], New) == ChangedInGroups(groups, New) + ChangedIn(group, New)
  {
    if groups == [] {
      assert groups + [group] == [group];
      assert [group][1..] == [];
    } else {
      assert (groups + [group])[1..] == groups[1..] + [group];
      GroupsSnoc(groups[1..], group, oldLines, newLines);
    }
  }

  method DocumentFromSources(oldContent: string, newContent: string, groups: seq<seq<Change>>)
    returns (document: DiffDocument)
    ensures document == DocumentOf(oldContent, newContent, groups)
  {
    var base, current := SourceDocument(oldContent), SourceDocument(newContent);
    var oldLines, newLines := base.LineCount(), current.LineCount();
    var hunks, changedOld, changedNew := BuildHunks(groups, oldLines, newLines);
    document := DiffDocument(base, current, hunks, changedOld, changedNew);
  }

  /** Hunks and changed lines of the groups so far. */
  predicate Built(groups: seq<seq<Change>>, oldLines: nat, newLines: nat, hunks: seq<Hunk>, changedOld: set<nat>,
                  changedNew: set<nat>)
  {
    && hunks == HunksOf(groups, oldLines, newLines)
    && changedOld == ChangedInGroups(groups, Old) && changedNew == ChangedInGroups(groups, New)
  }

  lemma BuiltSnoc(groups: seq<seq<Change>>, k: nat, oldLines: nat, newLines: nat, hunks: seq<Hunk>, changedOld: set<nat>,
                  changedNew: set<nat>)
    requires k < |groups| && Built(groups[..k], oldLines, newLines, hunks, changedOld, changedNew)
    ensures Built(groups[..k + 1], oldLines, newLines, hunks + GroupHunks(groups[k], oldLines, newLines),
                  changedOld + ChangedIn(groups[k], Old), changedNew + ChangedIn(groups[k], New))
  {
    assert groups[..k + 1] == groups[..k] + [groups[k]];
    GroupsSnoc(groups[..k], groups[k], oldLines, newLines);
  }

  method BuildHunks(groups: seq<seq<Change>>, oldLines: nat, newLines: nat)
    returns (hunks: seq<Hunk>, changedOld: set<nat>, changedNew: set<nat>)
    ensures Built(groups, oldLines, newLines, hunks, changedOld, changedNew)
  {
    hunks, changedOld, changedNew := [], {}, {};
    for k := 0 to |groups|
      invariant Built(groups[..k], oldLines, newLines, hunks, changedOld, changedNew)
    {
      var header, rows, groupOld, groupNew := BuildGroup(groups[k], oldLines, newLines);
      BuiltSnoc(groups, k, oldLines, newLines, hunks, changedOld, changedNew);
      changedOld, changedNew := changedOld + groupOld, changedNew + groupNew;
      if rows != [] {
        hunks := hunks + [Hunk(header, rows)];
      }
    }
    assert groups[..|groups|] == groups;
  }
}
