/** Printing documents as a patch and parsing the text gives the documents back, exactly when no removed text starts with
    "-- " and no added text with "++ ": those lines look like file headers. Paths with spaces are quoted here; Git's own way
    of writing them is the subject of `GitPatch`. */
module PatchRoundTrip {
  import opened Wrappers
  import opened Document
  import opened GitQuoting
  import opened HunkHeaders
  import opened PatchParser
  import opened Words

  /* ---- Rows that a printed hunk can hold ---- */

  function Shown(row: UnifiedRow): Line {
    var cell := if row.CellOn(Old).Some? then row.CellOn(Old) else row.CellOn(New);
    match cell
    case Some(c) => Line(c.text, c.hasTrailingNewline)
    case None => Line("", true)
  }

  /** The row of the given kind at the next line of each side. */
  function RowAt(kind: LineKind, i: nat, j: nat, line: Line): UnifiedRow {
    UnifiedRow(kind,
               if kind.Addition? then None else Some(Cell(Old, i, kind, if i == 0 then
                   0 else i - 1, line.text, line.newline)),
               if kind.Removal? then None else Some(Cell(New, j, kind, if j == 0 then
                   0 else j - 1, line.text, line.newline)))
  }

  predicate RowFits(row: UnifiedRow, i: nat, j: nat) {
    && row == RowAt(row.kind, i, j, Shown(row))
    && (!row.kind.Addition? ==> i > 0)
    && (!row.kind.Removal? ==> j > 0)
    && '\n' !in Shown(row).text
  }

  function OldStep(row: UnifiedRow): nat {
    if row.kind.Addition? then 0 else 1
  }

  function NewStep(row: UnifiedRow): nat {
    if row.kind.Removal? then 0 else 1
  }

  predicate RowsFit(rows: seq<UnifiedRow>, i: nat, j: nat) {
    rows == [] || (RowFits(rows[0], i, j) && RowsFit(rows[1..], i + OldStep(rows[0]), j + NewStep(rows[0])))
  }

  /** The rows that are no additions have a line of the old side, and those that are no removals one of the new side. */
  predicate HunkFits(hunk: Hunk) {
    var rows := hunk.unifiedRows;
    && Printable(hunk.header)
    && RowsFit(rows, hunk.header.oldStart, hunk.header.newStart)
    && hunk.header.oldCount == |set k | 0 <= k < |rows| && rows[k].kind != Addition|
    && hunk.header.newCount == |set k | 0 <= k < |rows| && rows[k].kind != Removal|
  }

  lemma {:induction false} CountsAre(rows: seq<UnifiedRow>, i: nat, j: nat)
    requires RowsFit(rows, i, j)
    ensures forall k | 0 <= k < |rows| ::
              (rows[k].CellOn(Old).Some? <==> rows[k].kind != Addition) &&
              (rows[k].CellOn(New).Some? <==> rows[k].kind != Removal)
  {
    if rows != [] {
      CountsAre(rows[1..], i + OldStep(rows[0]), j + NewStep(rows[0]));
      assert forall k | 0 < k < |rows| :: rows[k] == rows[1..][k - 1];
    }
  }

  lemma {:induction false} CountIs(rows: seq<UnifiedRow>, side: Side)
    ensures CountCells(rows, side) == |set k | 0 <= k < |rows| && rows[k].CellOn(side).Some?|
  {
    var all := set k | 0 <= k < |rows| && rows[k].CellOn(side).Some?;
    if rows != [] {
      var n, init := |rows| - 1, rows[..|rows| - 1];
      CountIs(init, side);
      assert (set k | 0 <= k < |init| && init[k].CellOn(side).Some?) == all - {n};
    } else {
      assert all == {};
    }
  }

  /** A hunk is closed exactly when its rows have as many lines of each side as its header counts; else the error gives the
      counts of the header and then those of the rows. */
  lemma ClosedWhen(b: BuilderState, header: HunkHeader)
    requires b.activeHeader == Some(header)
    ensures var rows := b.activeRows;
            var olds := |set k | 0 <= k < |rows| && rows[k].base.Some?|;
            var news := |set k | 0 <= k < |rows| && rows[k].current.Some?|;
            FinishActiveHunk(b) ==
            if olds == header.oldCount && news == header.newCount
            then Ok(b.(hunks := b.hunks + [Hunk(header, rows)], activeRows := [], activeHeader := None))
            else Err(HunkLineCountMismatch(header.oldCount, header.newCount, olds, news))
  {
    var rows := b.activeRows;
    CountIs(rows, Old);
    CountIs(rows, New);
    assert (set k | 0 <= k < |rows| && rows[k].CellOn(Old).Some?) == set k | 0 <= k < |rows| && rows[k].base.Some?;
    assert (set k | 0 <= k < |rows| && rows[k].CellOn(New).Some?) == set k | 0 <= k < |rows| && rows[k].current.Some?;
  }

  lemma HunkCounts(hunk: Hunk)
    requires HunkFits(hunk)
    ensures hunk.header.oldCount == CountCells(hunk.unifiedRows, Old)
    ensures hunk.header.newCount == CountCells(hunk.unifiedRows, New)
  {
    var rows := hunk.unifiedRows;
    CountsAre(rows, hunk.header.oldStart, hunk.header.newStart);
    CountIs(rows, Old);
    CountIs(rows, New);
    assert (set k | 0 <= k < |rows| && rows[k].CellOn(Old).Some?) == set k | 0 <= k < |rows| && rows[k].kind != Addition;
    assert (set k | 0 <= k < |rows| && rows[k].CellOn(New).Some?) == set k | 0 <= k < |rows| && rows[k].kind != Removal;
  }

  /** A removed or added line that the parser takes for a file header. */
  predicate Collides(row: UnifiedRow) {
    (row.kind.Removal? && "-- " <= Shown(row).text) || (row.kind.Addition? && "++ " <= Shown(row).text)
  }

  predicate RowsCollide(rows: seq<UnifiedRow>) {
    exists k :: 0 <= k < |rows| && Collides(rows[k])
  }

  predicate HunksCollide(hunks: seq<Hunk>) {
    exists k :: 0 <= k < |hunks| && RowsCollide(hunks[k].unifiedRows)
  }

  /* ---- Printing ---- */

  function Mark(kind: LineKind): char {
    match kind
    case Context => ' '
    case Removal => '-'
    case Addition => '+'
  }

  function PrintRow(row: UnifiedRow): seq<string> {
    [[Mark(row.kind)] + Shown(row).text] + if Shown(row).newline then [] else [NO_NEWLINE]
  }

  function PrintRows(rows: seq<UnifiedRow>): seq<string> {
    if rows == [] then [] else PrintRow(rows[0]) + PrintRows(rows[1..])
  }

  function PrintHunk(hunk: Hunk): seq<string> {
    [PrintHeader(hunk.header, GIT_FORM)] + PrintRows(hunk.unifiedRows)
  }

  function PrintHunks(hunks: seq<Hunk>): seq<string> {
    if hunks == [] then [] else PrintHunk(hunks[0]) + PrintHunks(hunks[1..])
  }

  /* ---- What a parsed hunk adds ---- */

  function Snippet(row: UnifiedRow, side: Side): string {
    if row.CellOn(side).Some? then row.CellOn(side).value.text + (if row.CellOn(side).value.hasTrailingNewline then
        "\n" else "")
    else ""
  }

  function Changed(row: UnifiedRow, side: Side): set<nat> {
    if row.kind == (if side.Old? then Removal else Addition) && row.CellOn(side).Some?
    then {row.CellOn(side).value.lineNumber} else {}
  }

  function RowsSnippet(rows: seq<UnifiedRow>, side: Side): string {
    if rows == [] then "" else Snippet(rows[0], side) + RowsSnippet(rows[1..], side)
  }

  function RowsChanged(rows: seq<UnifiedRow>, side: Side): set<nat> {
    if rows == [] then {} else Changed(rows[0], side) + RowsChanged(rows[1..], side)
  }

  function HunksSnippet(hunks: seq<Hunk>, side: Side): string {
    if hunks == [] then "" else RowsSnippet(hunks[0].unifiedRows, side) + HunksSnippet(hunks[1..], side)
  }

  function HunksChanged(hunks: seq<Hunk>, side: Side): set<nat> {
    if hunks == [] then {} else RowsChanged(hunks[0].unifiedRows, side) + HunksChanged(hunks[1..], side)
  }

  function Pushed(b: BuilderState, row: UnifiedRow): BuilderState {
    b.(activeRows := b.activeRows + [row],
       oldLine := b.oldLine + OldStep(row), newLine := b.newLine + NewStep(row),
       oldSnippet := b.oldSnippet + Snippet(row, Old), newSnippet := b.newSnippet + Snippet(row, New),
       changedOld := b.changedOld + Changed(row, Old), changedNew := b.changedNew + Changed(row, New))
  }

  function PushedAll(b: BuilderState, rows: seq<UnifiedRow>): BuilderState
    decreases |rows|
  {
    if rows == [] then b else PushedAll(Pushed(b, rows[0]), rows[1..])
  }

  function Steps(b: BuilderState, lines: seq<string>): Result<BuilderState, DiffError>
    decreases |lines|
  {
    if lines == [] then Ok(b)
    else
      var next :- StepLine(b, lines[0]);
      Steps(next, lines[1..])
  }

  lemma {:induction false} StepsConcat(b: BuilderState, x: seq<string>, y: seq<string>)
    ensures Steps(b, x + y) == match Steps(b, x) { case Ok(next) => Steps(next, y) case Err(e) => Err(e) }
    decreases |x|
  {
    if x == [] {
      assert x + y == y;
    } else {
      assert (x + y)[1..] == x[1..] + y;
      var next := StepLine(b, x[0]);
      if next.Ok? {
        StepsConcat(next.value, x[1..], y);
      }
    }
  }

  /* ---- One row ---- */

  lemma OneStep(b: BuilderState, line: string)
    ensures Steps(b, [line]) == StepLine(b, line)
  {
    assert [line][1..] == [];
    var next := StepLine(b, line);
    if next.Ok? {
      assert Steps(next.value, []) == Ok(next.value);
    }
  }

  lemma TwoSteps(b: BuilderState, first: string, second: string)
    ensures Steps(b, [first, second]) ==
            match StepLine(b, first) { case Ok(next) => StepLine(next, second) case Err(e) => Err(e) }
  {
    assert [first, second][1..] == [second];
    var next := StepLine(b, first);
    if next.Ok? {
      OneStep(next.value, second);
    }
  }

  lemma HunkLinePrefixes(c: char, text: string)
    requires c == ' ' || c == '-' || c == '+'
    ensures var line := [c] + text;
            && line[1..] == text
            && !("diff --git " <= line) && !("rename from " <= line) && !("rename to " <= line) && !("@@ " <= line)
            && line != NO_NEWLINE
            && ("--- " <= line <==> c == '-' && "-- " <= text)
            && ("+++ " <= line <==> c == '+' && "++ " <= text)
  {
    var line := [c] + text;
    assert line[0] == c;
    assert "-- " == ['-', '-', ' '] && "--- " == ['-', '-', '-', ' '];
    assert "++ " == ['+', '+', ' '] && "+++ " == ['+', '+', '+', ' '];
    assert forall k | 0 <= k < |text| :: line[k + 1] == text[k];
    if "-- " <= text {
      assert text[0] == '-' && text[1] == '-' && text[2] == ' ';
      assert line[..4] == [c] + text[..3];
    }
    if "++ " <= text {
      assert text[0] == '+' && text[1] == '+' && text[2] == ' ';
      assert line[..4] == [c] + text[..3];
    }
    if "--- " <= line {
      assert line[0] == '-' && line[1] == '-' && line[2] == '-' && line[3] == ' ';
      assert text[..3] == line[1..4];
    }
    if "+++ " <= line {
      assert line[0] == '+' && line[1] == '+' && line[2] == '+' && line[3] == ' ';
      assert text[..3] == line[1..4];
    }
  }

  lemma MarkerLine(b: BuilderState)
    ensures StepLine(b, NO_NEWLINE) == MarkLastLine(b)
  {
    assert NO_NEWLINE[0] == '\\';
  }

  /** A printed row line that is no file header reaches the hunk. */
  lemma RowLineStep(b: BuilderState, row: UnifiedRow)
    requires !Collides(row)
    ensures StepLine(b, [Mark(row.kind)] + Shown(row).text) == PushHunkLine(b, [Mark(row.kind)] + Shown(row).text)
  {
    HunkLinePrefixes(Mark(row.kind), Shown(row).text);
  }

  /** The row as first pushed, before its missing newline is known. */
  function Terminated(row: UnifiedRow): UnifiedRow {
    RowAt(row.kind, if row.CellOn(Old).Some? then row.CellOn(Old).value.lineNumber else 0,
          if row.CellOn(New).Some? then row.CellOn(New).value.lineNumber else 0, Line(Shown(row).text, true))
  }

  lemma PushTerminated(b: BuilderState, row: UnifiedRow)
    requires b.activeHeader.Some? && RowFits(row, b.oldLine, b.newLine)
    ensures PushHunkLine(b, [Mark(row.kind)] + Shown(row).text) == Ok(Pushed(b, Terminated(row)))
  {
    var line := [Mark(row.kind)] + Shown(row).text;
    assert line[1..] == Shown(row).text;
    var text := Shown(row).text;
    assert b.oldSnippet + (text + "\n") == b.oldSnippet + text + "\n";
    assert b.newSnippet + (text + "\n") == b.newSnippet + text + "\n";
    assert b.oldSnippet + "" == b.oldSnippet && b.newSnippet + "" == b.newSnippet;
    assert b.changedOld + {} == b.changedOld && b.changedNew + {} == b.changedNew;
  }

  lemma SnippetMarked(before: string, text: string)
    ensures RemoveFinalNewline(before + (text + "\n")) == Ok(before + (text + ""))
  {
    assert (before + (text + "\n"))[..|before + (text + "\n")| - 1] == before + (text + "");
  }

  lemma SnippetUnterminated(before: string, row: UnifiedRow, side: Side, i: nat, j: nat)
    requires RowFits(row, i, j) && !Shown(row).newline
    ensures var pushed := before + Snippet(Terminated(row), side);
            (if Terminated(row).CellOn(side).Some? then
                RemoveFinalNewline(pushed) else Ok(pushed)) == Ok(before + Snippet(row, side))
    ensures Changed(Terminated(row), side) == Changed(row, side)
  {
    SnippetMarked(before, Shown(row).text);
  }

  lemma RowUnterminated(row: UnifiedRow, i: nat, j: nat)
    requires RowFits(row, i, j) && !Shown(row).newline
    ensures UnterminatedRow(Terminated(row)) == row
    ensures Terminated(row).CellOn(Old).Some? || Terminated(row).CellOn(New).Some?
    ensures OldStep(Terminated(row)) == OldStep(row) && NewStep(Terminated(row)) == NewStep(row)
  {
  }

  lemma MarkPushed(b: BuilderState, row: UnifiedRow)
    requires RowFits(row, b.oldLine, b.newLine) && !Shown(row).newline
    ensures MarkLastLine(Pushed(b, Terminated(row))) == Ok(Pushed(b, row))
  {
    var rows := b.activeRows + [Terminated(row)];
    assert rows[..|rows| - 1] == b.activeRows && rows[|rows| - 1] == Terminated(row);
    RowUnterminated(row, b.oldLine, b.newLine);
    SnippetUnterminated(b.oldSnippet, row, Old, b.oldLine, b.newLine);
    SnippetUnterminated(b.newSnippet, row, New, b.oldLine, b.newLine);
  }

  lemma RowStep(b: BuilderState, row: UnifiedRow)
    requires b.activeHeader.Some? && RowFits(row, b.oldLine, b.newLine) && !Collides(row)
    ensures Steps(b, PrintRow(row)) == Ok(Pushed(b, row))
  {
    var line := [Mark(row.kind)] + Shown(row).text;
    RowLineStep(b, row);
    PushTerminated(b, row);
    var pushed := Pushed(b, Terminated(row));
    assert PrintRow(row)[0] == line;
    if Shown(row).newline {
      assert PrintRow(row)[1..] == [];
      assert Terminated(row) == row;
    } else {
      assert PrintRow(row)[1..] == [NO_NEWLINE];
      MarkerLine(pushed);
      MarkPushed(b, row);
      assert Steps(pushed, [NO_NEWLINE]) == Ok(Pushed(b, row)) by {
        assert [NO_NEWLINE][1..] == [];
      }
    }
  }

  lemma {:induction false} RowsStep(b: BuilderState, rows: seq<UnifiedRow>)
    requires b.activeHeader.Some? && RowsFit(rows, b.oldLine, b.newLine) && !RowsCollide(rows)
    ensures Steps(b, PrintRows(rows)) == Ok(PushedAll(b, rows))
    decreases |rows|
  {
    if rows != [] {
      assert !Collides(rows[0]);
      assert forall k | 0 <= k < |rows[1..]| :: rows[1..][k] == rows[k + 1];
      RowStep(b, rows[0]);
      RowsStep(Pushed(b, rows[0]), rows[1..]);
      StepsConcat(b, PrintRow(rows[0]), PrintRows(rows[1..]));
    }
  }

  /* ---- One hunk ---- */

  lemma {:induction false} PushedAllFields(b: BuilderState, rows: seq<UnifiedRow>)
    ensures var p := PushedAll(b, rows);
            && p == b.(activeRows := p.activeRows, oldLine := p.oldLine, newLine := p.newLine,
                       oldSnippet := p.oldSnippet, newSnippet := p.newSnippet,
                       changedOld := p.changedOld, changedNew := p.changedNew)
            && p.activeRows == b.activeRows + rows
            && p.oldSnippet == b.oldSnippet + RowsSnippet(rows, Old)
            && p.newSnippet == b.newSnippet + RowsSnippet(rows, New)
            && p.changedOld == b.changedOld + RowsChanged(rows, Old)
            && p.changedNew == b.changedNew + RowsChanged(rows, New)
    decreases |rows|
  {
    if rows == [] {
      assert b.activeRows + [] == b.activeRows && b.oldSnippet + "" == b.oldSnippet && b.newSnippet + "" == b.newSnippet;
    } else {
      PushedAllFields(Pushed(b, rows[0]), rows[1..]);
      assert rows == [rows[0]] + rows[1..];
      Assoc(b.activeRows, [rows[0]], rows[1..]);
      Assoc(b.oldSnippet, Snippet(rows[0], Old), RowsSnippet(rows[1..], Old));
      Assoc(b.newSnippet, Snippet(rows[0], New), RowsSnippet(rows[1..], New));
    }
  }

  /** A builder between hunks. */
  predicate Closed(b: BuilderState) {
    b.activeHeader.None? && b.activeRows == []
  }

  function Added(b: BuilderState, hunk: Hunk): BuilderState {
    PushedAll(Start(b, hunk.header), hunk.unifiedRows).(hunks := b.hunks + [hunk], activeRows := [], activeHeader := None)
  }

  function AddedAll(b: BuilderState, hunks: seq<Hunk>): BuilderState
    decreases |hunks|
  {
    if hunks == [] then b else AddedAll(Added(b, hunks[0]), hunks[1..])
  }

  lemma HeaderLineStep(b: BuilderState, header: HunkHeader)
    requires Printable(header)
    ensures StepLine(b, PrintHeader(header, GIT_FORM)) ==
            match FinishActiveHunk(b) { case Ok(closed) => Ok(Start(closed, header)) case Err(e) => Err(e) }
  {
    var line := PrintHeader(header, GIT_FORM);
    assert line[0] == '@' && line[1] == '@' && line[2] == ' ';
    assert "@@ " <= line;
    HeaderRoundTrip(header, GIT_FORM);
  }

  lemma HunkStep(b: BuilderState, closed: BuilderState, hunk: Hunk)
    requires FinishActiveHunk(b) == Ok(closed) && Closed(closed)
    requires HunkFits(hunk) && !RowsCollide(hunk.unifiedRows)
    ensures Steps(b, PrintHunk(hunk)).Ok?
    ensures FinishActiveHunk(Steps(b, PrintHunk(hunk)).value) == Ok(Added(closed, hunk))
  {
    var started := Start(closed, hunk.header);
    HunkCounts(hunk);
    HeaderLineStep(b, hunk.header);
    assert PrintHunk(hunk)[1..] == PrintRows(hunk.unifiedRows);
    RowsStep(started, hunk.unifiedRows);
    PushedAllFields(started, hunk.unifiedRows);
    assert [] + hunk.unifiedRows == hunk.unifiedRows;
  }

  lemma {:induction false} HunksStep(b: BuilderState, closed: BuilderState, hunks: seq<Hunk>)
    requires FinishActiveHunk(b) == Ok(closed) && Closed(closed)
    requires forall h | h in hunks :: HunkFits(h)
    requires !HunksCollide(hunks)
    ensures Steps(b, PrintHunks(hunks)).Ok?
    ensures FinishActiveHunk(Steps(b, PrintHunks(hunks)).value) == Ok(AddedAll(closed, hunks))
    decreases |hunks|
  {
    if hunks != [] {
      assert !RowsCollide(hunks[0].unifiedRows);
      assert forall k | 0 <= k < |hunks[1..]| :: hunks[1..][k] == hunks[k + 1];
      HunkStep(b, closed, hunks[0]);
      var next := Steps(b, PrintHunk(hunks[0])).value;
      HunksStep(next, Added(closed, hunks[0]), hunks[1..]);
      StepsConcat(b, PrintHunk(hunks[0]), PrintHunks(hunks[1..]));
    }
  }

  lemma AddedFields(b: BuilderState, hunk: Hunk)
    ensures var p := Added(b, hunk);
            && Closed(p) && p.path == b.path && p.oldPath == b.oldPath && p.status == b.status
            && p.hunks == b.hunks + [hunk]
            && p.oldSnippet == b.oldSnippet + RowsSnippet(hunk.unifiedRows, Old)
            && p.newSnippet == b.newSnippet + RowsSnippet(hunk.unifiedRows, New)
            && p.changedOld == b.changedOld + RowsChanged(hunk.unifiedRows, Old)
            && p.changedNew == b.changedNew + RowsChanged(hunk.unifiedRows, New)
  {
    PushedAllFields(Start(b, hunk.header), hunk.unifiedRows);
  }

  lemma Assoc<T>(a: seq<T>, b: seq<T>, c: seq<T>)
    ensures a + (b + c) == a + b + c
  {
  }

  /** From one closed builder to another these hunks were added. */
  predicate Extends(b: BuilderState, p: BuilderState, hunks: seq<Hunk>) {
    && Closed(p) && p.path == b.path && p.oldPath == b.oldPath && p.status == b.status
    && p.hunks == b.hunks + hunks
    && p.oldSnippet == b.oldSnippet + HunksSnippet(hunks, Old)
    && p.newSnippet == b.newSnippet + HunksSnippet(hunks, New)
    && p.changedOld == b.changedOld + HunksChanged(hunks, Old)
    && p.changedNew == b.changedNew + HunksChanged(hunks, New)
  }

  lemma ExtendsNext(b: BuilderState, p: BuilderState, hunk: Hunk, rest: seq<Hunk>)
    requires Extends(Added(b, hunk), p, rest)
    ensures Extends(b, p, [hunk] + rest)
  {
    AddedFields(b, hunk);
    assert ([hunk] + rest)[1..] == rest;
    Assoc(b.hunks, [hunk], rest);
    Assoc(b.oldSnippet, RowsSnippet(hunk.unifiedRows, Old), HunksSnippet(rest, Old));
    Assoc(b.newSnippet, RowsSnippet(hunk.unifiedRows, New), HunksSnippet(rest, New));
  }

  lemma ExtendsNone(b: BuilderState)
    requires Closed(b)
    ensures Extends(b, b, [])
  {
    assert b.hunks + [] == b.hunks && b.oldSnippet + "" == b.oldSnippet && b.newSnippet + "" == b.newSnippet;
  }

  lemma {:induction false} AddedAllFields(b: BuilderState, hunks: seq<Hunk>)
    requires Closed(b)
    ensures Extends(b, AddedAll(b, hunks), hunks)
    decreases |hunks|
  {
    if hunks == [] {
      ExtendsNone(b);
    } else {
      AddedFields(b, hunks[0]);
      AddedAllFields(Added(b, hunks[0]), hunks[1..]);
      ExtendsNext(b, AddedAll(b, hunks), hunks[0], hunks[1..]);
      assert hunks == [hunks[0]] + hunks[1..];
    }
  }

  /* ---- Collisions always fail ---- */

  function Total(rows: seq<UnifiedRow>): nat {
    CountCells(rows, Old) + CountCells(rows, New)
  }

  function RowTotal(row: UnifiedRow): nat {
    if row.kind.Context? then 2 else 1
  }

  /** What the parser can count of printed rows: colliding ones are lost. */
  function Seen(rows: seq<UnifiedRow>): nat {
    if rows == [] then 0 else (if Collides(rows[0]) then 0 else RowTotal(rows[0])) + Seen(rows[1..])
  }

  lemma CountSnoc(rows: seq<UnifiedRow>, row: UnifiedRow)
    ensures Total(rows + [row]) ==
            Total(rows) + (if row.CellOn(Old).Some? then 1 else 0) + if row.CellOn(New).Some? then 1 else 0
  {
    assert (rows + [row])[..|rows|] == rows;
  }

  /** Whatever a parsed line does, `b` and `c` are in the same hunk and `c` counts `n` more cells. */
  predicate Grew(b: BuilderState, c: BuilderState, n: nat) {
    c.activeHeader == b.activeHeader && c.hunks == b.hunks && Total(c.activeRows) == Total(b.activeRows) + n
  }

  lemma PushGrows(b: BuilderState, row: UnifiedRow)
    requires b.activeHeader.Some?
    ensures var r := PushHunkLine(b, [Mark(row.kind)] + Shown(row).text);
            r.Ok? && Grew(b, r.value, RowTotal(row))
  {
    var r := PushHunkLine(b, [Mark(row.kind)] + Shown(row).text);
    CountSnoc(b.activeRows, r.value.activeRows[|b.activeRows|]);
  }

  lemma MarkGrows(b: BuilderState)
    ensures MarkLastLine(b).Ok? ==> Grew(b, MarkLastLine(b).value, 0)
  {
    if b.activeRows != [] {
      var last := |b.activeRows| - 1;
      var row := b.activeRows[last];
      assert b.activeRows == b.activeRows[..last] + [row];
      CountSnoc(b.activeRows[..last], row);
      CountSnoc(b.activeRows[..last], UnterminatedRow(row));
    }
  }

  lemma CollisionGrows(b: BuilderState, row: UnifiedRow)
    requires Collides(row)
    ensures var r := StepLine(b, [Mark(row.kind)] + Shown(row).text);
            r.Ok? ==> Grew(b, r.value, 0)
  {
    HunkLinePrefixes(Mark(row.kind), Shown(row).text);
  }

  lemma FirstLineGrows(b: BuilderState, row: UnifiedRow)
    requires b.activeHeader.Some?
    ensures var r := StepLine(b, [Mark(row.kind)] + Shown(row).text);
            r.Ok? ==> Grew(b, r.value, if Collides(row) then 0 else RowTotal(row))
  {
    if Collides(row) {
      CollisionGrows(b, row);
    } else {
      RowLineStep(b, row);
      PushGrows(b, row);
    }
  }

  lemma RowGrows(b: BuilderState, row: UnifiedRow)
    requires b.activeHeader.Some?
    ensures var r := Steps(b, PrintRow(row));
            r.Ok? ==> Grew(b, r.value, if Collides(row) then 0 else RowTotal(row))
  {
    var line := [Mark(row.kind)] + Shown(row).text;
    FirstLineGrows(b, row);
    if Shown(row).newline {
      assert PrintRow(row) == [line];
      OneStep(b, line);
    } else {
      assert PrintRow(row) == [line, NO_NEWLINE];
      TwoSteps(b, line, NO_NEWLINE);
      var first := StepLine(b, line);
      if first.Ok? {
        MarkerLine(first.value);
        MarkGrows(first.value);
      }
    }
  }

  lemma {:induction false} RowsGrow(b: BuilderState, rows: seq<UnifiedRow>)
    requires b.activeHeader.Some?
    ensures var r := Steps(b, PrintRows(rows));
            r.Ok? ==> Grew(b, r.value, Seen(rows))
    decreases |rows|
  {
    if rows != [] {
      RowGrows(b, rows[0]);
      StepsConcat(b, PrintRow(rows[0]), PrintRows(rows[1..]));
      var first := Steps(b, PrintRow(rows[0]));
      if first.Ok? {
        RowsGrow(first.value, rows[1..]);
      }
    }
  }

  lemma {:induction false} SeenTotal(rows: seq<UnifiedRow>, i: nat, j: nat)
    requires RowsFit(rows, i, j)
    ensures Seen(rows) <= Total(rows)
    ensures RowsCollide(rows) ==> Seen(rows) < Total(rows)
  {
    if rows != [] {
      SeenTotal(rows[1..], i + OldStep(rows[0]), j + NewStep(rows[0]));
      TotalCons(rows);
      if RowsCollide(rows) && !Collides(rows[0]) {
        var k :| 0 <= k < |rows| && Collides(rows[k]);
        assert rows[1..][k - 1] == rows[k];
      }
    }
  }

  lemma {:induction false} TotalCons(rows: seq<UnifiedRow>)
    requires rows != []
    ensures Total(rows) == Total([rows[0]]) + Total(rows[1..])
    ensures Total([rows[0]]) == (if rows[0].CellOn(Old).Some? then 1 else 0) + if rows[0].CellOn(New).Some? then 1 else 0
    decreases |rows|
  {
    assert [] + [rows[0]] == [rows[0]];
    CountSnoc([], rows[0]);
    if |rows| > 1 {
      var init, last := rows[..|rows| - 1], rows[|rows| - 1];
      assert rows == init + [last];
      CountSnoc(init, last);
      TotalCons(init);
      assert rows[1..] == init[1..] + [last];
      CountSnoc(init[1..], last);
    } else {
      assert rows == [rows[0]] && rows[1..] == [];
    }
  }

  /** Rows are only ever pending inside a hunk. */
  predicate Sound(b: BuilderState) {
    b.activeHeader.None? ==> b.activeRows == []
  }

  lemma StepKeepsSound(b: BuilderState, line: string)
    requires Sound(b)
    ensures StepLine(b, line).Ok? ==> Sound(StepLine(b, line).value)
  {
    if IsHunkLine(line) {
      RowsKeepSound(b, line);
    } else if line == NO_NEWLINE {
      RowsKeepSound(b, " ");
    }
  }

  /** Rows are only added or marked inside a hunk. */
  lemma RowsKeepSound(b: BuilderState, line: string)
    requires Sound(b) && line != ""
    ensures PushHunkLine(b, line).Ok? ==> Sound(PushHunkLine(b, line).value)
    ensures MarkLastLine(b).Ok? ==> Sound(MarkLastLine(b).value)
  {
  }

  lemma {:induction false} StepsKeepSound(b: BuilderState, lines: seq<string>)
    requires Sound(b)
    ensures Steps(b, lines).Ok? ==> Sound(Steps(b, lines).value)
    decreases |lines|
  {
    if lines != [] {
      StepKeepsSound(b, lines[0]);
      if StepLine(b, lines[0]).Ok? {
        StepsKeepSound(StepLine(b, lines[0]).value, lines[1..]);
      }
    }
  }

  /** A hunk with a colliding row can be read, but never closed. */
  lemma CollidingHunk(b: BuilderState, hunk: Hunk)
    requires Sound(b)
    requires HunkFits(hunk) && RowsCollide(hunk.unifiedRows)
    ensures var r := Steps(b, PrintHunk(hunk));
            r.Err? || FinishActiveHunk(r.value).Err?
  {
    HunkCounts(hunk);
    HeaderLineStep(b, hunk.header);
    assert PrintHunk(hunk)[1..] == PrintRows(hunk.unifiedRows);
    var closed := FinishActiveHunk(b);
    if closed.Ok? {
      assert Closed(closed.value);
      var started := Start(closed.value, hunk.header);
      RowsGrow(started, hunk.unifiedRows);
      SeenTotal(hunk.unifiedRows, hunk.header.oldStart, hunk.header.newStart);
    }
  }

  lemma CollideSplit(hunks: seq<Hunk>)
    requires hunks != []
    ensures HunksCollide(hunks) <==> RowsCollide(hunks[0].unifiedRows) || HunksCollide(hunks[1..])
  {
    if HunksCollide(hunks) {
      var k :| 0 <= k < |hunks| && RowsCollide(hunks[k].unifiedRows);
      assert k == 0 || hunks[1..][k - 1] == hunks[k];
    }
    if HunksCollide(hunks[1..]) {
      var k :| 0 <= k < |hunks[1..]| && RowsCollide(hunks[1..][k].unifiedRows);
      assert hunks[k + 1] == hunks[1..][k];
    }
  }

  lemma FirstHunkFails(b: BuilderState, hunk: Hunk)
    requires Sound(b) && HunkFits(hunk)
    ensures var r := Steps(b, PrintHunk(hunk));
            && (FinishActiveHunk(b).Err? ==> r.Err?)
            && (r.Ok? && RowsCollide(hunk.unifiedRows) ==> FinishActiveHunk(r.value).Err?)
            && (r.Ok? ==> Sound(r.value))
  {
    HeaderLineStep(b, hunk.header);
    StepsKeepSound(b, PrintHunk(hunk));
    if RowsCollide(hunk.unifiedRows) {
      CollidingHunk(b, hunk);
    }
  }

  lemma {:induction false} CollidingHunks(b: BuilderState, hunks: seq<Hunk>)
    requires Sound(b)
    requires forall h | h in hunks :: HunkFits(h)
    requires FinishActiveHunk(b).Err? || HunksCollide(hunks)
    ensures var r := Steps(b, PrintHunks(hunks));
            r.Err? || FinishActiveHunk(r.value).Err?
    decreases |hunks|
  {
    if hunks != [] {
      assert HunkFits(hunks[0]);
      FirstHunkFails(b, hunks[0]);
      CollideSplit(hunks);
      StepsConcat(b, PrintHunk(hunks[0]), PrintHunks(hunks[1..]));
      if Steps(b, PrintHunk(hunks[0])).Ok? {
        CollidingHunks(Steps(b, PrintHunk(hunks[0])).value, hunks[1..]);
      }
    }
  }

  /* ---- Paths ---- */

  predicate IsBytes(path: string) {
    forall c | c in path :: c as int < 256
  }

  predicate IsGraphic(c: char) {
    32 < c as int < 127 && c != '"' && c != '\\'
  }

  function PieceOf(c: char): (piece: Piece)
    requires c as int < 256
    ensures piece.Valid() && piece.c == c && '\n' !in piece.Text()
  {
    if c == '"' || c == '\\' || c == '\n' || c == '\t' || c == '\r' then Named(c)
    else if 32 <= c as int < 127 then Plain(c)
    else Octal(c)
  }

  function PiecesOf(path: string): (pieces: seq<Piece>)
    requires IsBytes(path)
    ensures AllValid(pieces) && Bytes(pieces) == path && '\n' !in Escaped(pieces)
  {
    if path == "" then []
    else
      assert path[0] in path && forall c | c in path[1..] :: c in path;
      var pieces := [PieceOf(path[0])] + PiecesOf(path[1..]);
      assert pieces[1..] == PiecesOf(path[1..]);
      pieces
  }

  /** Graphic paths are left bare and all others quoted, those with a space too, which the parser expects. */
  function PathToken(path: string): (token: Token)
    requires IsBytes(path)
    ensures token.Valid() && token.Value() == path && '\n' !in token.Text()
  {
    if path != "" && (forall c | c in path :: IsGraphic(c)) then
      assert path[0] in path;
      Bare(path)
    else Quoted(PiecesOf(path))
  }

  function PathText(path: string): string
    requires IsBytes(path)
  {
    PathToken(path).Text()
  }

  lemma LoneToken(token: Token)
    requires token.Valid()
    ensures Tokens(token.Text()) == Ok([token.Value()])
  {
    TokenStep(token, "");
    assert token.Text() + "" == token.Text();
    assert Tokens("") == Ok([]);
    assert [token.Value()] + [] == [token.Value()];
  }

  lemma PathParses(path: string)
    requires IsBytes(path)
    ensures ParseGitPath(PathText(path)) == Ok(path)
  {
    var token := PathToken(path);
    if token.Quoted? {
      LoneToken(token);
    }
  }

  lemma PrefixStripped(path: string, prefix: string)
    requires prefix == "a/" || prefix == "b/"
    ensures StripPatchPrefix(prefix + path) == path
  {
    assert (prefix + path)[2..] == path;
    assert (prefix + path)[0] == prefix[0];
  }

  lemma PrefixedText(path: string, prefix: string)
    requires IsBytes(prefix + path) && (prefix == "a/" || prefix == "b/")
    ensures PathText(prefix + path) != "/dev/null"
  {
    var token := PathToken(prefix + path);
    if token.Quoted? {
      assert token.Text()[0] == '"';
    } else {
      assert token.Text() == prefix + path;
    }
  }

  lemma PrefixedParses(path: string, prefix: string)
    requires IsBytes(path) && (prefix == "a/" || prefix == "b/")
    ensures IsBytes(prefix + path) && StripPatchPrefix(prefix + path) == path
    ensures StripGitPatchPrefix(PathText(prefix + path)) == Ok(path)
    ensures PathText(prefix + path) != "/dev/null"
  {
    PrefixStripped(path, prefix);
    PathParses(prefix + path);
    PrefixedText(path, prefix);
  }

  function GitLine(oldPath: string, path: string): string
    requires IsBytes(oldPath) && IsBytes(path)
  {
    PathText("a/" + oldPath) + (" " + PathText("b/" + path))
  }

  lemma TokenBefore(first: Token, rest: string, values: seq<string>)
    requires first.Valid() && rest != "" && IsAsciiSpace(rest[0]) && Tokens(rest) == Ok(values)
    ensures Tokens(first.Text() + rest) == Ok([first.Value()] + values)
  {
    TokenStep(first, rest);
  }

  lemma SpacedToken(token: Token)
    requires token.Valid()
    ensures Tokens(" " + token.Text()) == Ok([token.Value()])
  {
    LeadingSpace(token.Text());
    LoneToken(token);
  }

  lemma TwoTokens(first: Token, second: Token, text: string)
    requires first.Valid() && second.Valid() && text == first.Text() + (" " + second.Text())
    ensures Tokens(text) == Ok([first.Value()] + [second.Value()])
  {
    SpacedToken(second);
    TokenBefore(first, " " + second.Text(), [second.Value()]);
  }

  lemma PrefixedTokens(oldPath: string, path: string)
    requires IsBytes(oldPath) && IsBytes(path)
    ensures IsBytes("a/" + oldPath) && IsBytes("b/" + path)
    ensures Tokens(GitLine(oldPath, path)) == Ok(["a/" + oldPath] + ["b/" + path])
  {
    PrefixBytes("a/", oldPath);
    PrefixBytes("b/", path);
    TwoTokens(PathToken("a/" + oldPath), PathToken("b/" + path), GitLine(oldPath, path));
  }

  lemma PrefixBytes(prefix: string, path: string)
    requires (prefix == "a/" || prefix == "b/") && IsBytes(path)
    ensures IsBytes(prefix + path)
  {
  }

  lemma GitLineParses(oldPath: string, path: string)
    requires IsBytes(oldPath) && IsBytes(path)
    ensures ParseDiffGitPaths(GitLine(oldPath, path)) == Ok((oldPath, path))
  {
    PrefixedTokens(oldPath, path);
    PrefixStripped(oldPath, "a/");
    PrefixStripped(path, "b/");
  }

  /* ---- Files as text ---- */

  /** The text of one file: the names after `diff --git `, the header lines before the hunks, and the hunks; with the file
      that the parser makes of the names and the header lines. */
  datatype FileText = FileText(names: string, headers: seq<string>, file: ReviewFile, hunks: seq<Hunk>)

  /** The builder once the header lines of a file are read. */
  function HeadersRead(file: ReviewFile): BuilderState {
    NewBuilder(file.oldPath.GetOr(""), file.path).(status := file.status)
  }

  /** The names and header lines can be read, say what they should and look like no other lines. */
  predicate Says(f: FileText) {
    && f.file.oldPath.Some? && ParseDiffGitPaths(f.names).Ok? && '\n' !in f.names
    && (forall line | line in f.headers :: InnerLine(line)) && (forall h | h in f.hunks :: HunkFits(h))
    && var paths := ParseDiffGitPaths(f.names).value;
       Steps(NewBuilder(paths.0, paths.1), f.headers) == Ok(HeadersRead(f.file))
  }

  /** The document of a file with these hunks. */
  function DocumentWith(file: ReviewFile, hunks: seq<Hunk>): PatchDocument {
    PatchDocument(file, DiffDocument(SourceDocument(HunksSnippet(hunks, Old)), SourceDocument(HunksSnippet(hunks, New)),
                                     hunks, HunksChanged(hunks, Old), HunksChanged(hunks, New)))
  }

  predicate AllSay(files: seq<FileText>) {
    files == [] || (Says(files[0]) && AllSay(files[1..]))
  }

  function LinesOf(f: FileText): seq<string>
    requires Says(f)
  {
    ["diff --git " + f.names] + (f.headers + PrintHunks(f.hunks))
  }

  function AllLines(files: seq<FileText>): seq<string>
    requires AllSay(files)
  {
    if files == [] then [] else LinesOf(files[0]) + AllLines(files[1..])
  }

  function AsLines(texts: seq<string>): (lines: seq<Line>)
    ensures |lines| == |texts|
    ensures forall k | 0 <= k < |texts| :: lines[k] == Line(texts[k], true)
  {
    seq(|texts|, k requires 0 <= k < |texts| => Line(texts[k], true))
  }

  function PatchText(files: seq<FileText>): string
    requires AllSay(files)
  {
    JoinLines(AsLines(AllLines(files)))
  }

  function DocumentsOf(files: seq<FileText>): seq<PatchDocument> {
    if files == [] then [] else [DocumentWith(files[0].file, files[0].hunks)] + DocumentsOf(files[1..])
  }

  lemma PrefixedLine(prefix: string, rest: string)
    ensures prefix <= prefix + rest && (prefix + rest)[|prefix|..] == rest
  {
  }

  /** Reading the hunks of one file completes it, unless one collides. */
  lemma FileFinishes(file: ReviewFile, hunks: seq<Hunk>)
    requires file.oldPath.Some? && forall h | h in hunks :: HunkFits(h)
    ensures var r := Steps(HeadersRead(file), PrintHunks(hunks));
            if HunksCollide(hunks) then r.Err? || Finish(r.value).Err?
            else r.Ok? && Finish(r.value) == Ok(DocumentWith(file, hunks))
  {
    var b := HeadersRead(file);
    if HunksCollide(hunks) {
      CollidingHunks(b, hunks);
    } else {
      HunksStep(b, b, hunks);
      AddedFinishes(file, hunks);
    }
  }

  lemma AddedFinishes(file: ReviewFile, hunks: seq<Hunk>)
    requires file.oldPath.Some?
    ensures Finish(AddedAll(HeadersRead(file), hunks)) == Ok(DocumentWith(file, hunks))
  {
    AddedAllFields(HeadersRead(file), hunks);
    assert [] + hunks == hunks;
    assert "" + HunksSnippet(hunks, Old) == HunksSnippet(hunks, Old);
    assert "" + HunksSnippet(hunks, New) == HunksSnippet(hunks, New);
    assert {} + HunksChanged(hunks, Old) == HunksChanged(hunks, Old);
    assert {} + HunksChanged(hunks, New) == HunksChanged(hunks, New);
  }

  /** No line after a file header looks like the start of another file. */
  predicate InsideFile(line: string) {
    !("diff --git " <= line)
  }

  lemma {:induction false} InsideSteps(st: ParserState, lines: seq<string>)
    requires st.current.Some?
    requires forall line | line in lines :: InsideFile(line)
    ensures ParseLines(st, lines) ==
            match Steps(st.current.value, lines)
            case Ok(b) => Ok(ParserState(st.documents, Some(b)))
            case Err(e) => Err(e)
    decreases |lines|
  {
    if lines != [] {
      assert InsideFile(lines[0]);
      var next := StepLine(st.current.value, lines[0]);
      if next.Ok? {
        InsideSteps(ParserState(st.documents, Some(next.value)), lines[1..]);
      }
    }
  }

  lemma {:induction false} ParseConcat(st: ParserState, x: seq<string>, y: seq<string>)
    ensures ParseLines(st, x + y) == match ParseLines(st, x) { case Ok(next) => ParseLines(next, y) case Err(e) => Err(e) }
    decreases |x|
  {
    if x == [] {
      assert x + y == y;
    } else {
      assert (x + y)[1..] == x[1..] + y;
      var next := ParseLine(st, x[0]);
      if next.Ok? {
        ParseConcat(next.value, x[1..], y);
      }
    }
  }

  /** Lines the printer emits inside a file: no newline in them, and none starts a file. */
  predicate InnerLine(line: string) {
    InsideFile(line) && '\n' !in line
  }

  lemma NotGitLine(line: string)
    requires line != "" && line[0] != 'd'
    ensures InsideFile(line)
  {
    assert "diff --git "[0] == 'd';
  }

  lemma RowLinesInner(row: UnifiedRow, i: nat, j: nat)
    requires RowFits(row, i, j)
    ensures forall line | line in PrintRow(row) :: InnerLine(line)
  {
    HunkLinePrefixes(Mark(row.kind), Shown(row).text);
    assert NO_NEWLINE[0] == '\\' && "diff --git "[0] == 'd';
  }

  lemma {:induction false} RowsLinesInner(rows: seq<UnifiedRow>, i: nat, j: nat)
    requires RowsFit(rows, i, j)
    ensures forall line | line in PrintRows(rows) :: InnerLine(line)
  {
    if rows != [] {
      RowLinesInner(rows[0], i, j);
      RowsLinesInner(rows[1..], i + OldStep(rows[0]), j + NewStep(rows[0]));
    }
  }

  lemma HeaderLineInner(header: HunkHeader)
    requires Printable(header)
    ensures InnerLine(PrintHeader(header, GIT_FORM))
  {
    var line := PrintHeader(header, GIT_FORM);
    assert line[0] == '@' && "diff --git "[0] == 'd';
    RangeCharacters('-', header.oldStart, header.oldCount, true);
    RangeCharacters('+', header.newStart, header.newCount, true);
    assert IsWhite('\n');
    assert '\n' !in PrintRanges(header, GIT_FORM);
    assert '\n' !in ContextText(header.context);
  }

  lemma {:induction false} HunksLinesInner(hunks: seq<Hunk>)
    requires forall h | h in hunks :: HunkFits(h)
    ensures forall line | line in PrintHunks(hunks) :: InnerLine(line)
  {
    if hunks != [] {
      var h := hunks[0];
      assert HunkFits(h);
      HeaderLineInner(h.header);
      RowsLinesInner(h.unifiedRows, h.header.oldStart, h.header.newStart);
      HunksLinesInner(hunks[1..]);
    }
  }

  predicate Collide(files: seq<FileText>) {
    exists k :: 0 <= k < |files| && HunksCollide(files[k].hunks)
  }

  lemma FileParses(st: ParserState, f: FileText)
    requires Says(f)
    ensures ParseLines(st, LinesOf(f)) ==
            match Finished(st)
            case Err(e) => Err(e)
            case Ok(documents) =>
              match Steps(HeadersRead(f.file), PrintHunks(f.hunks))
              case Ok(b) => Ok(ParserState(documents, Some(b)))
              case Err(e) => Err(e)
  {
    var inner := f.headers + PrintHunks(f.hunks);
    var first := "diff --git " + f.names;
    PrefixedLine("diff --git ", f.names);
    assert LinesOf(f)[0] == first && LinesOf(f)[1..] == inner;
    var done := Finished(st);
    if done.Ok? {
      var paths := ParseDiffGitPaths(f.names).value;
      var fileOpen := ParserState(done.value, Some(NewBuilder(paths.0, paths.1)));
      assert ParseLine(st, first) == Ok(fileOpen);
      HunksLinesInner(f.hunks);
      assert forall line | line in inner :: line in f.headers || line in PrintHunks(f.hunks);
      InsideSteps(fileOpen, inner);
      StepsConcat(NewBuilder(paths.0, paths.1), f.headers, PrintHunks(f.hunks));
    }
  }

  /** What parsing the printed files makes of a parser state. */
  predicate Parsed(st: ParserState, files: seq<FileText>, r: Result<ParserState, DiffError>) {
    if Finished(st).Err? && (st.current.Some? || files != []) then r.Err? || Finished(r.value).Err?
    else if Collide(files) then r.Err? || Finished(r.value).Err?
    else r.Ok? && Finished(st).Ok? && Finished(r.value) == Ok(Finished(st).value + DocumentsOf(files))
  }

  lemma FilesSplit(files: seq<FileText>)
    requires files != []
    ensures Collide(files) <==> HunksCollide(files[0].hunks) || Collide(files[1..])
  {
    if Collide(files) {
      var k :| 0 <= k < |files| && HunksCollide(files[k].hunks);
      assert k == 0 || files[1..][k - 1] == files[k];
    }
    if Collide(files[1..]) {
      var k :| 0 <= k < |files[1..]| && HunksCollide(files[1..][k].hunks);
      assert files[k + 1] == files[1..][k];
    }
  }

  /** What parsing one printed file makes of a parser state. */
  predicate ParsedOne(st: ParserState, f: FileText, r: Result<ParserState, DiffError>) {
    && (r.Ok? ==> r.value.current.Some?)
    && (if Finished(st).Err? then r.Err?
        else if HunksCollide(f.hunks) then r.Err? || Finished(r.value).Err?
        else r.Ok? && Finished(r.value) == Ok(Finished(st).value + [DocumentWith(f.file, f.hunks)]))
  }

  lemma OneFile(st: ParserState, f: FileText)
    requires Says(f)
    ensures ParsedOne(st, f, ParseLines(st, LinesOf(f)))
  {
    FileParses(st, f);
    FileFinishes(f.file, f.hunks);
  }

  /** One file and then the rest. */
  lemma ParsedCons(st: ParserState, files: seq<FileText>, read: Result<ParserState, DiffError>,
                   r: Result<ParserState, DiffError>)
    requires files != [] && ParsedOne(st, files[0], read)
    requires if read.Ok? then Parsed(read.value, files[1..], r) else r.Err?
    requires Collide(files) <==> HunksCollide(files[0].hunks) || Collide(files[1..])
    ensures Parsed(st, files, r)
  {
    if Finished(st).Ok? {
      Assoc(Finished(st).value, [DocumentWith(files[0].file, files[0].hunks)], DocumentsOf(files[1..]));
    }
  }

  lemma {:induction false} FilesParse(st: ParserState, files: seq<FileText>)
    requires AllSay(files)
    ensures Parsed(st, files, ParseLines(st, AllLines(files)))
    decreases |files|
  {
    if files == [] {
      if Finished(st).Ok? {
        assert Finished(st).value + [] == Finished(st).value;
      }
    } else {
      var read := ParseLines(st, LinesOf(files[0]));
      OneFile(st, files[0]);
      FilesSplit(files);
      ParseConcat(st, LinesOf(files[0]), AllLines(files[1..]));
      if read.Ok? {
        FilesParse(read.value, files[1..]);
      }
      ParsedCons(st, files, read, ParseLines(st, AllLines(files)));
    }
  }

  lemma {:induction false} PrintedLinesSeparable(files: seq<FileText>)
    requires AllSay(files)
    ensures forall line | line in AllLines(files) :: '\n' !in line
  {
    if files != [] {
      FileLinesSeparable(files[0]);
      PrintedLinesSeparable(files[1..]);
    }
  }

  lemma FileLinesSeparable(f: FileText)
    requires Says(f)
    ensures forall line | line in LinesOf(f) :: '\n' !in line
  {
    HunksLinesInner(f.hunks);
    forall line | line in LinesOf(f)
      ensures line == "diff --git " + f.names || line in f.headers || line in PrintHunks(f.hunks)
    {
    }
    assert '\n' !in "diff --git " + f.names;
  }

  lemma TextHasLines(files: seq<FileText>)
    requires AllSay(files)
    ensures Texts(SplitLines(PatchText(files))) == AllLines(files)
  {
    PrintedLinesSeparable(files);
    JoinThenSplit(AsLines(AllLines(files)));
    assert Texts(AsLines(AllLines(files))) == AllLines(files);
  }

  /** Parsing the text of files gives what their headers say with their hunks, headers, rows, line numbers, changed lines,
      newline flags and snippets, when no row collides; with a collision the parser reports an error. */
  lemma TextParses(files: seq<FileText>)
    requires AllSay(files)
    ensures if Collide(files) then ParsePatch(PatchText(files)).Err?
            else ParsePatch(PatchText(files)) == Ok(DocumentsOf(files))
  {
    TextHasLines(files);
    FilesParse(START, files);
    assert [] + DocumentsOf(files) == DocumentsOf(files);
    if files == [] {
      assert AllLines(files) == [];
    }
  }

  /* ---- Lines without meaning ---- */

  /** A line that opens no file and no hunk, names no path, shows no row and marks no missing newline. */
  predicate IsInert(line: string) {
    && !("diff --git " <= line) && !("rename from " <= line) && !("rename to " <= line)
    && !("--- " <= line) && !("+++ " <= line) && !("@@ " <= line)
    && (line == "" || (line[0] != ' ' && line[0] != '+' && line[0] != '-'))
    && line != "\\ No newline at end of file"
  }

  /** The lines with a meaning. */
  function Kept(lines: seq<string>): seq<string> {
    if lines == [] then [] else (if IsInert(lines[0]) then [] else [lines[0]]) + Kept(lines[1..])
  }

  lemma InertStep(b: BuilderState, line: string)
    requires IsInert(line)
    ensures StepLine(b, line) == Ok(b)
  {
  }

  lemma {:induction false} InertLinesAreSkipped(st: ParserState, lines: seq<string>)
    ensures ParseLines(st, lines) == ParseLines(st, Kept(lines))
    decreases |lines|
  {
    if lines != [] {
      var next := ParseLine(st, lines[0]);
      if IsInert(lines[0]) {
        if st.current.Some? {
          InertStep(st.current.value, lines[0]);
        }
        assert [] + Kept(lines[1..]) == Kept(lines[1..]);
        InertLinesAreSkipped(st, lines[1..]);
      } else {
        assert ([lines[0]] + Kept(lines[1..]))[1..] == Kept(lines[1..]);
        if next.Ok? {
          InertLinesAreSkipped(next.value, lines[1..]);
        }
      }
    }
  }

  /** Patches that differ in inert lines only are parsed alike. */
  lemma SameMeaning(p: string, q: string)
    requires p != "" && q != "" && Kept(Texts(SplitLines(p))) == Kept(Texts(SplitLines(q)))
    ensures ParsePatch(p) == ParsePatch(q)
  {
    InertLinesAreSkipped(START, Texts(SplitLines(p)));
    InertLinesAreSkipped(START, Texts(SplitLines(q)));
  }

  /** Lines before the first file header mean nothing, whatever they hold. */
  lemma {:induction false} PreambleIsSkipped(preamble: seq<string>, lines: seq<string>)
    requires forall line | line in preamble :: InsideFile(line)
    ensures ParseLines(START, preamble + lines) == ParseLines(START, lines)
    decreases |preamble|
  {
    if preamble == [] {
      assert preamble + lines == lines;
    } else {
      assert (preamble + lines)[0] == preamble[0] && (preamble + lines)[1..] == preamble[1..] + lines;
      assert InsideFile(preamble[0]);
      assert ParseLine(START, preamble[0]) == Ok(START);
      assert forall line | line in preamble[1..] :: line in preamble;
      PreambleIsSkipped(preamble[1..], lines);
    }
  }

  /** Git's header lines beyond those the parser reads. */
  predicate IsGitHeader(line: string) {
    || "index " <= line || "old mode " <= line || "new mode " <= line || "new file mode " <= line
    || "deleted file mode " <= line || "copy from " <= line || "copy to " <= line || "similarity index " <= line
    || "dissimilarity index " <= line || "Binary files " <= line || "GIT binary patch" <= line
  }

  /** They are inert, whatever they say. */
  lemma GitHeadersAreInert(line: string)
    requires IsGitHeader(line)
    ensures IsInert(line)
  {
    if "deleted file mode " <= line {
      NotDiff(line, 'e', 'l');
    } else if "dissimilarity index " <= line {
      NotDiff(line, 'i', 's');
    } else {
      StartsOtherwise(line);
    }
  }

  lemma StartsOtherwise(line: string)
    requires line != "" && line[0] !in {' ', '+', '-', '@', 'r', '\\', 'd'}
    ensures IsInert(line)
  {
    assert "diff --git "[0] == 'd' && "rename from "[0] == 'r' && "rename to "[0] == 'r' && NO_NEWLINE[0] == '\\';
  }

  lemma NotDiff(line: string, second: char, third: char)
    requires |line| > 2 && line[0] == 'd' && line[1] == second && line[2] == third && (second != 'i' || third != 'f')
    ensures IsInert(line)
  {
    assert "diff --git "[1] == 'i' && "diff --git "[2] == 'f' && "rename from "[0] == 'r' && "rename to "[0] == 'r';
    assert NO_NEWLINE[0] == '\\';
  }

  lemma KeptFirst(lines: seq<string>)
    requires lines != [] && !IsInert(lines[0])
    ensures Kept(lines) != []
  {
  }

  lemma SomeLineKept(files: seq<FileText>, patch: string)
    requires AllSay(files) && files != [] && Kept(Texts(SplitLines(patch))) == Kept(AllLines(files))
    ensures patch != "" && PatchText(files) != ""
  {
    PrefixedLine("diff --git ", files[0].names);
    assert AllLines(files)[0] == "diff --git " + files[0].names;
    KeptFirst(AllLines(files));
    TextHasLines(files);
    assert Texts(SplitLines("")) == [] && Kept([]) == [];
  }

  /** Parsing a patch that shows files, with inert lines anywhere in it, gives their documents when no row collides; with a
      collision the parser reports an error. */
  lemma PatchParses(files: seq<FileText>, patch: string)
    requires AllSay(files) && files != [] && Kept(Texts(SplitLines(patch))) == Kept(AllLines(files))
    ensures if Collide(files) then ParsePatch(patch).Err? else ParsePatch(patch) == Ok(DocumentsOf(files))
  {
    SomeLineKept(files, patch);
    TextHasLines(files);
    SameMeaning(patch, PatchText(files));
    TextParses(files);
  }

  /* ---- Documents with quoted paths ---- */

  predicate DocumentFits(d: PatchDocument) {
    && d.file.oldPath.Some? && IsBytes(d.file.oldPath.value) && IsBytes(d.file.path)
    && (forall h | h in d.diff.hunks :: HunkFits(h))
    && d == DocumentWith(d.file, d.diff.hunks)
  }

  predicate AllFit(documents: seq<PatchDocument>) {
    documents == [] || (DocumentFits(documents[0]) && AllFit(documents[1..]))
  }

  function RenameLines(d: PatchDocument): seq<string>
    requires DocumentFits(d)
  {
    if d.file.status.Renamed?
    then ["rename from " + PathText(d.file.oldPath.value), "rename to " + PathText(d.file.path)]
    else []
  }

  function OldName(d: PatchDocument): string
    requires DocumentFits(d)
  {
    if d.file.status.Added? then "/dev/null" else PathText("a/" + d.file.oldPath.value)
  }

  function NewName(d: PatchDocument): string
    requires DocumentFits(d)
  {
    if d.file.status.Deleted? then "/dev/null" else PathText("b/" + d.file.path)
  }

  function NameLines(d: PatchDocument): seq<string>
    requires DocumentFits(d)
  {
    ["--- " + OldName(d), "+++ " + NewName(d)]
  }

  function QuotedText(d: PatchDocument): FileText
    requires DocumentFits(d)
  {
    FileText(GitLine(d.file.oldPath.value, d.file.path), RenameLines(d) + NameLines(d), d.file, d.diff.hunks)
  }

  function QuotedTexts(documents: seq<PatchDocument>): seq<FileText>
    requires AllFit(documents)
  {
    if documents == [] then [] else [QuotedText(documents[0])] + QuotedTexts(documents[1..])
  }

  lemma RenameFromStep(b: BuilderState, name: string)
    ensures StepLine(b, "rename from " + name) ==
            match ParseGitPath(name) { case Ok(path) => Ok(b.(oldPath := Some(path))) case Err(e) => Err(e) }
  {
    PrefixedLine("rename from ", name);
  }

  lemma RenameToStep(b: BuilderState, name: string)
    ensures StepLine(b, "rename to " + name) ==
            match ParseGitPath(name) { case Ok(path) => Ok(b.(path := path, status := Renamed)) case Err(e) => Err(e) }
  {
    var line := "rename to " + name;
    PrefixedLine("rename to ", name);
    assert line[7] == 't' && "rename from "[7] == 'f';
  }

  lemma OldNameStep(b: BuilderState, name: string)
    ensures StepLine(b, "--- " + name) ==
            if name == "/dev/null" then Ok(b.(status := Status.Added))
            else match StripGitPatchPrefix(name) { case Ok(path) => Ok(b.(oldPath := Some(path))) case Err(e) => Err(e) }
  {
    var line := "--- " + name;
    PrefixedLine("--- ", name);
    assert line[0] == '-' && "rename from "[0] == 'r' && "rename to "[0] == 'r';
  }

  lemma NewNameStep(b: BuilderState, name: string)
    ensures StepLine(b, "+++ " + name) ==
            if name == "/dev/null" then Ok(b.(status := Status.Deleted))
            else match StripGitPatchPrefix(name) { case Ok(path) => Ok(b.(path := path)) case Err(e) => Err(e) }
  {
    var line := "+++ " + name;
    PrefixedLine("+++ ", name);
    assert line[0] == '+' && "rename from "[0] == 'r' && "rename to "[0] == 'r' && "--- "[0] == '-';
  }

  lemma RenameSteps(d: PatchDocument)
    requires DocumentFits(d)
    ensures var b := NewBuilder(d.file.oldPath.value, d.file.path);
            Steps(b, RenameLines(d)) == Ok(if d.file.status.Renamed? then HeadersRead(d.file) else b)
  {
    var b := NewBuilder(d.file.oldPath.value, d.file.path);
    if d.file.status.Renamed? {
      PathParses(d.file.oldPath.value);
      PathParses(d.file.path);
      RenameFromStep(b, PathText(d.file.oldPath.value));
      RenameToStep(b, PathText(d.file.path));
      TwoSteps(b, "rename from " + PathText(d.file.oldPath.value), "rename to " + PathText(d.file.path));
    }
  }

  lemma NameSteps(d: PatchDocument, b: BuilderState)
    requires DocumentFits(d)
    requires b == if d.file.status.Renamed? then HeadersRead(d.file) else NewBuilder(d.file.oldPath.value, d.file.path)
    ensures Steps(b, NameLines(d)) == Ok(HeadersRead(d.file))
  {
    PrefixedParses(d.file.oldPath.value, "a/");
    PrefixedParses(d.file.path, "b/");
    OldNameStep(b, OldName(d));
    var next := StepLine(b, "--- " + OldName(d)).value;
    NewNameStep(next, NewName(d));
    TwoSteps(b, "--- " + OldName(d), "+++ " + NewName(d));
  }

  lemma QuotedHeaders(d: PatchDocument)
    requires DocumentFits(d)
    ensures Steps(NewBuilder(d.file.oldPath.value, d.file.path), RenameLines(d) + NameLines(d)) == Ok(HeadersRead(d.file))
  {
    var b := NewBuilder(d.file.oldPath.value, d.file.path);
    RenameSteps(d);
    NameSteps(d, Steps(b, RenameLines(d)).value);
    StepsConcat(b, RenameLines(d), NameLines(d));
  }

  lemma QuotedHeadersInner(d: PatchDocument)
    requires DocumentFits(d)
    ensures forall line | line in RenameLines(d) + NameLines(d) :: InnerLine(line)
  {
    NotGitLine("rename from " + PathText(d.file.oldPath.value));
    NotGitLine("rename to " + PathText(d.file.path));
    NotGitLine("--- " + OldName(d));
    NotGitLine("+++ " + NewName(d));
  }

  lemma QuotedSays(d: PatchDocument)
    requires DocumentFits(d)
    ensures Says(QuotedText(d))
  {
    GitLineParses(d.file.oldPath.value, d.file.path);
    QuotedHeaders(d);
    QuotedHeadersInner(d);
  }

  lemma {:induction false} AllQuotedSay(documents: seq<PatchDocument>)
    requires AllFit(documents)
    ensures AllSay(QuotedTexts(documents))
  {
    if documents != [] {
      QuotedSays(documents[0]);
      AllQuotedSay(documents[1..]);
    }
  }

  lemma SameQuoted(d: PatchDocument)
    requires DocumentFits(d)
    ensures DocumentWith(QuotedText(d).file, QuotedText(d).hunks) == d
  {
  }

  lemma DocumentsCons(f: FileText, files: seq<FileText>, d: PatchDocument)
    requires DocumentWith(f.file, f.hunks) == d
    ensures DocumentsOf([f] + files) == [d] + DocumentsOf(files)
  {
    assert ([f] + files)[1..] == files;
  }

  lemma HeadAndTail<T>(items: seq<T>)
    requires items != []
    ensures items == [items[0]] + items[1..]
  {
  }

  lemma {:induction false} QuotedDocuments(documents: seq<PatchDocument>)
    requires AllFit(documents)
    ensures DocumentsOf(QuotedTexts(documents)) == documents
  {
    if documents != [] {
      QuotedDocuments(documents[1..]);
      SameQuoted(documents[0]);
      DocumentsCons(QuotedText(documents[0]), QuotedTexts(documents[1..]), documents[0]);
      HeadAndTail(documents);
    }
  }

  function PrintPatch(documents: seq<PatchDocument>): string
    requires AllFit(documents)
  {
    AllQuotedSay(documents);
    PatchText(QuotedTexts(documents))
  }

  /** Parsing a printed patch returns the same files, headers, rows, line numbers, changed lines, newline flags and snippets
      exactly when no line collides; with a collision the parser reports an error. */
  lemma PatchRoundTrips(documents: seq<PatchDocument>)
    requires AllFit(documents)
    ensures ParsePatch(PrintPatch(documents)) == Ok(documents) <==> !Collide(QuotedTexts(documents))
    ensures Collide(QuotedTexts(documents)) ==> ParsePatch(PrintPatch(documents)).Err?
  {
    AllQuotedSay(documents);
    QuotedDocuments(documents);
    TextParses(QuotedTexts(documents));
  }
}
