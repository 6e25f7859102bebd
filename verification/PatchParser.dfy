/** The stateful unified-patch parser of crates/diff/src/lib.rs: pure steps of its file builder, the builder
    object itself, and the loop over patch lines. */
module PatchParser {
  import opened Wrappers
  import opened Document
  import opened GitQuoting
  import opened HunkHeaders
  import opened Words

  datatype Status = Added | Modified | Deleted | Renamed

  datatype ReviewFile = ReviewFile(path: string, oldPath: Option<string>, status: Status)

  datatype PatchDocument = PatchDocument(file: ReviewFile, diff: DiffDocument)

  const NO_NEWLINE := "\\ No newline at end of file"

  datatype BuilderState = BuilderState(
    path: string, oldPath: Option<string>, status: Status, hunks: seq<Hunk>, activeHeader: Option<HunkHeader>,
    activeRows: seq<UnifiedRow>, oldSnippet: string, newSnippet: string, oldLine: nat, newLine: nat,
    changedOld: set<nat>, changedNew: set<nat>)

  /* ---- Paths ---- */

  function TokensOf(text: string): Result<seq<string>, DiffError> {
    match Tokens(text)
    case Ok(tokens) => Ok(tokens)
    case Err(_) => Err(MissingFileHeader)
  }

  function StripPatchPrefix(path: string): string {
    StripPrefix(path, "a/").GetOr(StripPrefix(path, "b/").GetOr(path))
  }

  /** Index of the first token from `k` on that starts with "b/". */
  function FindNewPath(tokens: seq<string>, k: nat): Option<nat>
    ensures FindNewPath(tokens, k).Some? ==> k <= FindNewPath(tokens, k).value < |tokens|
    decreases |tokens| - k
  {
    if k >= |tokens| then None else if "b/" <= tokens[k] then Some(k) else FindNewPath(tokens, k + 1)
  }

  function ParseDiffGitPaths(text: string): Result<(string, string), DiffError> {
    var tokens :- TokensOf(text);
    if |tokens| == 2 then Ok((StripPatchPrefix(tokens[0]), StripPatchPrefix(tokens[1])))
    else
      var split := FindNewPath(tokens, 1);
      if split.None? then Err(MissingFileHeader)
      else Ok((StripPatchPrefix(Join(tokens[..split.value])), StripPatchPrefix(Join(tokens[split.value..]))))
  }

  function ParseGitPath(text: string): Result<string, DiffError> {
    if text == "" || text[0] != '"' then Ok(text)
    else
      var tokens :- TokensOf(text);
      if |tokens| == 1 then Ok(tokens[0]) else Err(MissingFileHeader)
  }

  function StripGitPatchPrefix(text: string): Result<string, DiffError> {
    var path :- ParseGitPath(text);
    Ok(StripPatchPrefix(path))
  }

  /* ---- Builder steps ---- */

  function NewBuilder(oldPath: string, path: string): BuilderState {
    BuilderState(path, Some(oldPath), Modified, [], None, [], "", "", 0, 0, {}, {})
  }

  function CountCells(rows: seq<UnifiedRow>, side: Side): nat {
    if rows == [] then 0 else CountCells(rows[..|rows| - 1], side) + if rows[|rows| - 1].CellOn(side).Some? then 1 else 0
  }

  function FinishActiveHunk(b: BuilderState): Result<BuilderState, DiffError> {
    match b.activeHeader
    case None => Ok(b)
    case Some(header) =>
      var oldActual, newActual := CountCells(b.activeRows, Old), CountCells(b.activeRows, New);
      if oldActual != header.oldCount || newActual != header.newCount
      then Err(HunkLineCountMismatch(header.oldCount, header.newCount, oldActual, newActual))
      else Ok(b.(hunks := b.hunks + [Hunk(header, b.activeRows)], activeRows := [], activeHeader := None))
  }

  function Start(b: BuilderState, header: HunkHeader): BuilderState {
    b.(oldLine := header.oldStart, newLine := header.newStart, activeHeader := Some(header))
  }

  function StartHunk(b: BuilderState, line: string): Result<BuilderState, DiffError> {
    var closed :- FinishActiveHunk(b);
    var header :- ParseHunkHeader(line);
    Ok(Start(closed, header))
  }

  function LineCell(side: Side, line: nat, kind: LineKind, text: string): Cell {
    MakeCell(side, if line == 0 then 0 else line - 1, kind, Line(text, true))
  }

  function PushHunkLine(b: BuilderState, line: string): Result<BuilderState, DiffError>
    requires line != ""
  {
    if b.activeHeader.None? then Ok(b)
    else
      var text := line[1..];
      match line[0]
      case ' ' =>
        var row := UnifiedRow(Context, Some(LineCell(Old, b.oldLine, Context, text)),
                              Some(LineCell(New, b.newLine, Context, text)));
        Ok(b.(activeRows := b.activeRows + [row], oldLine := b.oldLine + 1, newLine := b.newLine + 1,
              oldSnippet := b.oldSnippet + text + "\n", newSnippet := b.newSnippet + text + "\n"))
      case '-' =>
        var row := UnifiedRow(Removal, Some(LineCell(Old, b.oldLine, Removal, text)), None);
        Ok(b.(activeRows := b.activeRows + [row], oldLine := b.oldLine + 1,
              changedOld := b.changedOld + {b.oldLine}, oldSnippet := b.oldSnippet + text + "\n"))
      case '+' =>
        var row := UnifiedRow(Addition, None, Some(LineCell(New, b.newLine, Addition, text)));
        Ok(b.(activeRows := b.activeRows + [row], newLine := b.newLine + 1,
              changedNew := b.changedNew + {b.newLine}, newSnippet := b.newSnippet + text + "\n"))
      case _ => Err(InvalidHunkLine)
  }

  function Unterminated(cell: Option<Cell>): Option<Cell> {
    match cell
    case None => None
    case Some(c) => Some(c.(hasTrailingNewline := false))
  }

  function UnterminatedRow(row: UnifiedRow): UnifiedRow {
    UnifiedRow(row.kind, Unterminated(row.CellOn(Old)), Unterminated(row.CellOn(New)))
  }

  function RemoveFinalNewline(snippet: string): Result<string, DiffError> {
    if snippet != "" && snippet[|snippet| - 1] == '\n' then Ok(snippet[..|snippet| - 1]) else Err(MissingNoNewlineTarget)
  }

  function MarkLastLine(b: BuilderState): Result<BuilderState, DiffError> {
    if b.activeRows == [] then Err(MissingNoNewlineTarget)
    else
      var last := |b.activeRows| - 1;
      var row := b.activeRows[last];
      if row.CellOn(Old).None? && row.CellOn(New).None? then Err(MissingNoNewlineTarget)
      else
        var oldSnippet :- if row.CellOn(Old).Some? then RemoveFinalNewline(b.oldSnippet) else Ok(b.oldSnippet);
        var newSnippet :- if row.CellOn(New).Some? then RemoveFinalNewline(b.newSnippet) else Ok(b.newSnippet);
        Ok(b.(activeRows := b.activeRows[..last] + [UnterminatedRow(row)],
              oldSnippet := oldSnippet, newSnippet := newSnippet))
  }

  function DocumentOfBuilder(b: BuilderState): PatchDocument {
    PatchDocument(ReviewFile(b.path, b.oldPath, b.status),
                  DiffDocument(SourceDocument(b.oldSnippet), SourceDocument(b.newSnippet), b.hunks,
                               b.changedOld, b.changedNew))
  }

  function Finish(b: BuilderState): Result<PatchDocument, DiffError> {
    var closed :- FinishActiveHunk(b);
    Ok(DocumentOfBuilder(closed))
  }

  /* ---- The line loop ---- */

  predicate IsHunkLine(line: string) {
    line != "" && (line[0] == ' ' || line[0] == '+' || line[0] == '-')
  }

  /** One line after the first file header, in the order the parser tries its prefixes. */
  function StepLine(b: BuilderState, line: string): Result<BuilderState, DiffError> {
    if "rename from " <= line then
      var path :- ParseGitPath(line[12..]);
      Ok(b.(oldPath := Some(path)))
    else if "rename to " <= line then
      var path :- ParseGitPath(line[10..]);
      Ok(b.(path := path, status := Renamed))
    else if "--- " <= line then
      if line[4..] == "/dev/null" then Ok(b.(status := Added))
      else
        var path :- StripGitPatchPrefix(line[4..]);
        Ok(b.(oldPath := Some(path)))
    else if "+++ " <= line then
      if line[4..] == "/dev/null" then Ok(b.(status := Deleted))
      else
        var path :- StripGitPatchPrefix(line[4..]);
        Ok(b.(path := path))
    else if "@@ " <= line then StartHunk(b, line)
    else if IsHunkLine(line) then PushHunkLine(b, line)
    else if line == NO_NEWLINE then MarkLastLine(b)
    else Ok(b)
  }

  datatype ParserState = ParserState(documents: seq<PatchDocument>, current: Option<BuilderState>)

  const START := ParserState([], None)

  function Finished(st: ParserState): Result<seq<PatchDocument>, DiffError> {
    match st.current
    case None => Ok(st.documents)
    case Some(b) =>
      var document :- Finish(b);
      Ok(st.documents + [document])
  }

  function ParseLine(st: ParserState, line: string): Result<ParserState, DiffError> {
    if "diff --git " <= line then
      var documents :- Finished(st);
      var paths :- ParseDiffGitPaths(line[11..]);
      Ok(ParserState(documents, Some(NewBuilder(paths.0, paths.1))))
    else
      match st.current
      case None => Ok(st)
      case Some(b) =>
        var next :- StepLine(b, line);
        Ok(st.(current := Some(next)))
  }

  function ParseLines(st: ParserState, lines: seq<string>): Result<ParserState, DiffError>
    decreases |lines|
  {
    if lines == [] then Ok(st)
    else
      var next :- ParseLine(st, lines[0]);
      ParseLines(next, lines[1..])
  }

  function Texts(lines: seq<Line>): (texts: seq<string>)
    ensures |texts| == |lines|
    ensures forall k | 0 <= k < |lines| :: texts[k] == lines[k].text
  {
    seq(|lines|, k requires 0 <= k < |lines| => lines[k].text)
  }

  function ParsePatch(patch: string): Result<seq<PatchDocument>, DiffError> {
    var st :- ParseLines(START, Texts(SplitLines(patch)));
    var documents :- Finished(st);
    if documents == [] && patch != "" then Err(MissingFileHeader) else Ok(documents)
  }

  /* ---- The builder object ---- */

  class PatchFileBuilder {
    var path: string
    var oldPath: Option<string>
    var status: Status
    var hunks: seq<Hunk>
    var activeHeader: Option<HunkHeader>
    var activeRows: seq<UnifiedRow>
    var oldSnippet: string
    var newSnippet: string
    var oldLine: nat
    var newLine: nat
    var changedOld: set<nat>
    var changedNew: set<nat>

    ghost function State(): BuilderState
      reads this
    {
      BuilderState(path, oldPath, status, hunks, activeHeader, activeRows, oldSnippet, newSnippet, oldLine, newLine,
                   changedOld, changedNew)
    }

    constructor (oldPath: string, newPath: string)
      ensures State() == NewBuilder(oldPath, newPath)
    {
      this.path, this.oldPath, status := newPath, Some(oldPath), Modified;
      hunks, activeHeader, activeRows := [], None, [];
      oldSnippet, newSnippet, oldLine, newLine, changedOld, changedNew := "", "", 0, 0, {}, {};
    }

    method CloseHunk() returns (r: Result<(), DiffError>)
      modifies this
      ensures match FinishActiveHunk(old(State()))
              case Ok(closed) => r == Ok(()) && State() == closed
              case Err(e) => r == Err(e)
    {
      if activeHeader.Some? {
        var header := activeHeader.value;
        activeHeader := None;
        var oldActual, newActual := CountCells(activeRows, Old), CountCells(activeRows, New);
        if oldActual != header.oldCount || newActual != header.newCount {
          return Err(HunkLineCountMismatch(header.oldCount, header.newCount, oldActual, newActual));
        }
        hunks := hunks + [Hunk(header, activeRows)];
        activeRows := [];
      }
      r := Ok(());
    }

    method OpenHunk(line: string) returns (r: Result<(), DiffError>)
      modifies this
      ensures match StartHunk(old(State()), line)
              case Ok(next) => r == Ok(()) && State() == next
              case Err(e) => r == Err(e)
    {
      r := CloseHunk();
      if r.Err? {
        return;
      }
      var header := ParseHunkHeader(line);
      if header.Err? {
        return Err(header.error);
      }
      oldLine, newLine := header.value.oldStart, header.value.newStart;
      activeHeader := Some(header.value);
    }

    method Push(line: string) returns (r: Result<(), DiffError>)
      requires line != ""
      modifies this
      ensures match PushHunkLine(old(State()), line)
              case Ok(next) => r == Ok(()) && State() == next
              case Err(e) => r == Err(e)
    {
      if activeHeader.None? {
        return Ok(());
      }
      var text := line[1..];
      match line[0] {
        case ' ' =>
          var row := UnifiedRow(Context, Some(LineCell(Old, oldLine, Context, text)),
                                Some(LineCell(New, newLine, Context, text)));
          oldLine, newLine := oldLine + 1, newLine + 1;
          oldSnippet, newSnippet := oldSnippet + text + "\n", newSnippet + text + "\n";
          activeRows := activeRows + [row];
        case '-' =>
          var row := UnifiedRow(Removal, Some(LineCell(Old, oldLine, Removal, text)), None);
          changedOld := changedOld + {oldLine};
          oldLine := oldLine + 1;
          oldSnippet := oldSnippet + text + "\n";
          activeRows := activeRows + [row];
        case '+' =>
          var row := UnifiedRow(Addition, None, Some(LineCell(New, newLine, Addition, text)));
          changedNew := changedNew + {newLine};
          newLine := newLine + 1;
          newSnippet := newSnippet + text + "\n";
          activeRows := activeRows + [row];
        case _ =>
          return Err(InvalidHunkLine);
      }
      r := Ok(());
    }

    method MarkMissingNewline() returns (r: Result<(), DiffError>)
      modifies this
      ensures match MarkLastLine(old(State()))
              case Ok(next) => r == Ok(()) && State() == next
              case Err(e) => r == Err(e)
    {
      if activeRows == [] {
        return Err(MissingNoNewlineTarget);
      }
      var last := |activeRows| - 1;
      var row := activeRows[last];
      activeRows := activeRows[..last] + [UnterminatedRow(row)];
      if row.CellOn(Old).None? && row.CellOn(New).None? {
        return Err(MissingNoNewlineTarget);
      }
      if row.CellOn(Old).Some? {
        var shorter := RemoveFinalNewline(oldSnippet);
        if shorter.Err? {
          return Err(shorter.error);
        }
        oldSnippet := shorter.value;
      }
      if row.CellOn(New).Some? {
        var shorter := RemoveFinalNewline(newSnippet);
        if shorter.Err? {
          return Err(shorter.error);
        }
        newSnippet := shorter.value;
      }
      r := Ok(());
    }

    method Complete() returns (r: Result<PatchDocument, DiffError>)
      modifies this
      ensures r == Finish(old(State()))
    {
      var closed := CloseHunk();
      if closed.Err? {
        return Err(closed.error);
      }
      r := Ok(PatchDocument(ReviewFile(path, oldPath, status),
                            DiffDocument(SourceDocument(oldSnippet), SourceDocument(newSnippet), hunks,
                                         changedOld, changedNew)));
    }

    method Line(line: string) returns (r: Result<(), DiffError>)
      modifies this
      ensures match StepLine(old(State()), line)
              case Ok(next) => r == Ok(()) && State() == next
              case Err(e) => r == Err(e)
    {
      r := Ok(());
      if "rename from " <= line {
        var parsed := ParseGitPath(line[12..]);
        if parsed.Err? { return Err(parsed.error); }
        oldPath := Some(parsed.value);
      } else if "rename to " <= line {
        var parsed := ParseGitPath(line[10..]);
        if parsed.Err? { return Err(parsed.error); }
        path, status := parsed.value, Renamed;
      } else if "--- " <= line {
        if line[4..] == "/dev/null" {
          status := Added;
        } else {
          var parsed := StripGitPatchPrefix(line[4..]);
          if parsed.Err? { return Err(parsed.error); }
          oldPath := Some(parsed.value);
        }
      } else if "+++ " <= line {
        if line[4..] == "/dev/null" {
          status := Deleted;
        } else {
          var parsed := StripGitPatchPrefix(line[4..]);
          if parsed.Err? { return Err(parsed.error); }
          path := parsed.value;
        }
      } else if "@@ " <= line {
        r := OpenHunk(line);
      } else if IsHunkLine(line) {
        r := Push(line);
      } else if line == NO_NEWLINE {
        r := MarkMissingNewline();
      }
    }
  }

  ghost function StateOf(documents: seq<PatchDocument>, builder: PatchFileBuilder?): ParserState
    reads builder
  {
    ParserState(documents, if builder == null then None else Some(builder.State()))
  }

  /** Completes the file in progress, if there is one. */
  method TakeCurrent(documents: seq<PatchDocument>, builder: PatchFileBuilder?)
    returns (r: Result<seq<PatchDocument>, DiffError>)
    modifies builder
    ensures r == Finished(old(StateOf(documents, builder)))
  {
    if builder == null {
      return Ok(documents);
    }
    var finished := builder.Complete();
    if finished.Err? {
      return Err(finished.error);
    }
    r := Ok(documents + [finished.value]);
  }

  method ParseUnifiedPatch(patch: string) returns (r: Result<seq<PatchDocument>, DiffError>)
    ensures r == ParsePatch(patch)
  {
    var documents: seq<PatchDocument> := [];
    var builder: PatchFileBuilder? := null;
    var lines := Texts(SplitLines(patch));
    assert lines[0..] == lines;
    for k := 0 to |lines|
      invariant builder == null || fresh(builder)
      invariant ParseLines(START, lines) == ParseLines(StateOf(documents, builder), lines[k..])
    {
      var line := lines[k];
      assert lines[k..][0] == line && lines[k..][1..] == lines[k + 1..];
      if "diff --git " <= line {
        var finished := TakeCurrent(documents, builder);
        if finished.Err? {
          return Err(finished.error);
        }
        documents := finished.value;
        var paths := ParseDiffGitPaths(line[11..]);
        if paths.Err? {
          return Err(paths.error);
        }
        builder := new PatchFileBuilder(paths.value.0, paths.value.1);
      } else if builder != null {
        var stepped := builder.Line(line);
        if stepped.Err? {
          return Err(stepped.error);
        }
      }
    }
    var finished := TakeCurrent(documents, builder);
    if finished.Err? {
      return Err(finished.error);
    }
    if finished.value == [] && patch != "" {
      return Err(MissingFileHeader);
    }
    r := finished;
  }
}
