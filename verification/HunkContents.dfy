/** What the hunks of a document hold, read off the two sources alone (crates/diff/src/lib.rs): which lines a hunk shows, in
    which rows, and that the hunks together are a patch of one source into the other. */
module HunkContents {
  import opened Wrappers
  import opened Document
  import opened FullFile

  /* ---- One hunk ---- */

  function Listed(cell: Option<Cell>): seq<Cell> {
    match cell
    case None => []
    case Some(c) => [c]
  }

  function OldCells(rows: seq<UnifiedRow>): seq<Cell> {
    if rows == [] then [] else Listed(rows[0].base) + OldCells(rows[1..])
  }

  function NewCells(rows: seq<UnifiedRow>): seq<Cell> {
    if rows == [] then [] else Listed(rows[0].current) + NewCells(rows[1..])
  }

  /** The cell shows the source line its number says. */
  predicate ShowsLine(cell: Cell, side: Side, lines: seq<Line>) {
    && cell.side == side && 0 < cell.lineNumber <= |lines| && cell.sourceLineIndex == cell.lineNumber - 1
    && lines[cell.lineNumber - 1] == Line(cell.text, cell.hasTrailingNewline)
  }

  /** The cells show `count` lines in order, from line `start` on. */
  predicate ShowLines(cells: seq<Cell>, side: Side, lines: seq<Line>, start: nat, count: nat) {
    && |cells| == count
    && forall i | 0 <= i < count :: cells[i].lineNumber == start + i && ShowsLine(cells[i], side, lines)
  }

  /** A context row shows one line of both sources, the same text on both sides; any other row a line of one side. */
  predicate RowFits(row: UnifiedRow) {
    match row.kind
    case Context =>
      && row.base.Some? && row.current.Some? && row.base.value.kind == Context == row.current.value.kind
      && row.base.value.text == row.current.value.text
      && row.base.value.hasTrailingNewline == row.current.value.hasTrailingNewline
    case Removal => row.base.Some? && row.current.None? && row.base.value.kind == Removal
    case Addition => row.base.None? && row.current.Some? && row.current.value.kind == Addition
  }

  predicate HunkFits(hunk: Hunk, a: seq<Line>, b: seq<Line>) {
    && ShowLines(OldCells(hunk.unifiedRows), Old, a, hunk.header.oldStart, hunk.header.oldCount)
    && ShowLines(NewCells(hunk.unifiedRows), New, b, hunk.header.newStart, hunk.header.newCount)
    && forall row | row in hunk.unifiedRows :: RowFits(row)
  }

  lemma ChangeShows(c: Change, a: seq<Line>, b: seq<Line>, p: nat, q: nat)
    requires ChangeAt(c, Old, a, p) && ChangeAt(c, New, b, q)
    ensures RowFits(RowOf(c))
    ensures RowOf(c).base.Some? <==> Has(c.tag, Old)
    ensures RowOf(c).current.Some? <==> Has(c.tag, New)
    ensures RowOf(c).base.Some? ==>
              ShowsLine(RowOf(c).base.value, Old, a) && RowOf(c).base.value.lineNumber == p + 1
    ensures RowOf(c).current.Some? ==>
              ShowsLine(RowOf(c).current.value, New, b) && RowOf(c).current.value.lineNumber == q + 1
  {
  }

  lemma ShowMore(cell: Option<Cell>, cells: seq<Cell>, side: Side, lines: seq<Line>, p: nat, count: nat)
    requires cell.Some? ==> ShowsLine(cell.value, side, lines) && cell.value.lineNumber == p + 1
    requires ShowLines(cells, side, lines, if cell.Some? then p + 2 else p + 1, count)
    ensures ShowLines(Listed(cell) + cells, side, lines, p + 1, if cell.Some? then count + 1 else count)
  {
    if cell.Some? {
      var all := [cell.value] + cells;
      forall i | 0 <= i < |all| ensures all[i].lineNumber == p + 1 + i && ShowsLine(all[i], side, lines) {
        assert i > 0 ==> all[i] == cells[i - 1];
      }
    } else {
      assert [] + cells == cells;
    }
  }

  lemma GroupCons(group: seq<Change>)
    requires group != []
    ensures OldCells(RowsOf(group)) == Listed(RowOf(group[0]).base) + OldCells(RowsOf(group[1..]))
    ensures NewCells(RowsOf(group)) == Listed(RowOf(group[0]).current) + NewCells(RowsOf(group[1..]))
    ensures forall row | row in RowsOf(group) :: row == RowOf(group[0]) || row in RowsOf(group[1..])
  {
    assert RowsOf(group) == [RowOf(group[0])] + RowsOf(group[1..]);
  }

  lemma {:induction false} GroupShows(group: seq<Change>, a: seq<Line>, b: seq<Line>, p: nat, q: nat)
    requires Walks(group, Old, a, p) && Walks(group, New, b, q)
    ensures ShowLines(OldCells(RowsOf(group)), Old, a, p + 1, Span(group, Old))
    ensures ShowLines(NewCells(RowsOf(group)), New, b, q + 1, Span(group, New))
    ensures forall row | row in RowsOf(group) :: RowFits(row)
  {
    if group != [] {
      var c, rest := group[0], group[1..];
      GroupShows(rest, a, b, p + Step(c, Old), q + Step(c, New));
      ChangeShows(c, a, b, p, q);
      GroupCons(group);
      ShowMore(RowOf(c).base, OldCells(RowsOf(rest)), Old, a, p, Span(rest, Old));
      ShowMore(RowOf(c).current, NewCells(RowsOf(rest)), New, b, q, Span(rest, New));
    }
  }

  lemma {:induction false} HunkOfGroup(groups: seq<seq<Change>>, oldCount: nat, newCount: nat, hunk: Hunk) returns (k: nat)
    requires hunk in HunksOf(groups, oldCount, newCount)
    ensures k < |groups| && groups[k] != [] && hunk == HunkOf(groups[k], oldCount, newCount)
  {
    if hunk in GroupHunks(groups[0], oldCount, newCount) {
      k := 0;
    } else {
      k := HunkOfGroup(groups[1..], oldCount, newCount, hunk);
      k := k + 1;
    }
  }

  lemma {:induction false} GroupsAt(segments: seq<Segment>, k: nat)
    requires k < |segments|
    ensures |Groups(segments)| == |segments| && Groups(segments)[k] == segments[k].group
  {
    if k > 0 {
      GroupsAt(segments[1..], k - 1);
    } else if |segments| > 1 {
      GroupsAt(segments[1..], 0);
    }
  }

  lemma {:induction false} GroupsCount(segments: seq<Segment>)
    ensures |Groups(segments)| == |segments|
  {
    if segments != [] {
      GroupsCount(segments[1..]);
    }
  }

  lemma SegmentShows(oldContent: string, newContent: string, script: Script, k: nat)
    requires Conforms(script, SourceDocument(oldContent), SourceDocument(newContent))
    requires k < |script.segments| && script.segments[k].group != []
    ensures var hunk := HunkOf(script.segments[k].group, |SplitLines(oldContent)|, |SplitLines(newContent)|);
            HunkFits(hunk, SplitLines(oldContent), SplitLines(newContent))
  {
    var group := script.segments[k].group;
    GroupWalks(script, Old, SplitLines(oldContent), k);
    GroupWalks(script, New, SplitLines(newContent), k);
    GroupShows(group, SplitLines(oldContent), SplitLines(newContent), Span(Before(script, k), Old),
               Span(Before(script, k), New));
    HeaderNamesItsLines(oldContent, newContent, script, k, Old);
    HeaderNamesItsLines(oldContent, newContent, script, k, New);
  }

  /** Every hunk of a document shows, on each side, exactly the lines its header names, in order and as the source has them;
      a context row shows an equal pair and any other row one line of its own side. */
  lemma HunkShowsItsLines(oldContent: string, newContent: string, script: Script, hunk: Hunk)
    requires Conforms(script, SourceDocument(oldContent), SourceDocument(newContent))
    requires hunk in DocumentOf(oldContent, newContent, Groups(script.segments)).hunks
    ensures HunkFits(hunk, SplitLines(oldContent), SplitLines(newContent))
  {
    var k := HunkOfGroup(Groups(script.segments), |SplitLines(oldContent)|, |SplitLines(newContent)|, hunk);
    GroupsCount(script.segments);
    GroupsAt(script.segments, k);
    SegmentShows(oldContent, newContent, script, k);
  }

  /* ---- The changed lines ---- */

  predicate ShowsRemoved(row: UnifiedRow, n: nat) {
    row.base.Some? && row.current.None? && row.base.value.lineNumber == n
  }

  predicate ShowsAdded(row: UnifiedRow, n: nat) {
    row.base.None? && row.current.Some? && row.current.value.lineNumber == n
  }

  ghost predicate SomeRow(hunks: seq<Hunk>, shows: (UnifiedRow, nat) -> bool, n: nat) {
    exists hunk, row :: hunk in hunks && row in hunk.unifiedRows && shows(row, n)
  }

  lemma ChangedInGroup(group: seq<Change>, n: nat)
    ensures n in ChangedIn(group, Old) <==> exists row :: row in RowsOf(group) && ShowsRemoved(row, n)
    ensures n in ChangedIn(group, New) <==> exists row :: row in RowsOf(group) && ShowsAdded(row, n)
  {
    forall c | c in group
      ensures RowOf(c) in RowsOf(group)
      ensures ShowsRemoved(RowOf(c), n) <==> c.tag.Delete? && c.oldIndex.GetOr(0) + 1 == n
      ensures ShowsAdded(RowOf(c), n) <==> c.tag.Insert? && c.newIndex.GetOr(0) + 1 == n
    {
      var i :| 0 <= i < |group| && group[i] == c;
      assert RowsOf(group)[i] == RowOf(c);
    }
    forall row | row in RowsOf(group) ensures exists c :: c in group && row == RowOf(c) {
      var i :| 0 <= i < |group| && RowsOf(group)[i] == row;
      assert group[i] in group;
    }
  }

  lemma {:induction false} ChangedInHunks(groups: seq<seq<Change>>, oldCount: nat, newCount: nat, n: nat)
    ensures n in ChangedInGroups(groups, Old) <==> SomeRow(HunksOf(groups, oldCount, newCount), ShowsRemoved, n)
    ensures n in ChangedInGroups(groups, New) <==> SomeRow(HunksOf(groups, oldCount, newCount), ShowsAdded, n)
  {
    if groups != [] {
      ChangedInHunks(groups[1..], oldCount, newCount, n);
      ChangedInGroup(groups[0], n);
      var first, rest := GroupHunks(groups[0], oldCount, newCount), HunksOf(groups[1..], oldCount, newCount);
      SomeRowConcat(first, rest, ShowsRemoved, n);
      SomeRowConcat(first, rest, ShowsAdded, n);
      OneGroup(groups[0], oldCount, newCount, ShowsRemoved, n);
      OneGroup(groups[0], oldCount, newCount, ShowsAdded, n);
    }
  }

  lemma SomeRowConcat(a: seq<Hunk>, b: seq<Hunk>, shows: (UnifiedRow, nat) -> bool, n: nat)
    ensures SomeRow(a + b, shows, n) <==> SomeRow(a, shows, n) || SomeRow(b, shows, n)
  {
    if SomeRow(a, shows, n) {
      var hunk, row :| hunk in a && row in hunk.unifiedRows && shows(row, n);
      assert hunk in a + b;
    }
    if SomeRow(b, shows, n) {
      var hunk, row :| hunk in b && row in hunk.unifiedRows && shows(row, n);
      assert hunk in a + b;
    }
  }

  lemma OneGroup(group: seq<Change>, oldCount: nat, newCount: nat, shows: (UnifiedRow, nat) -> bool, n: nat)
    ensures SomeRow(GroupHunks(group, oldCount, newCount), shows, n) <==> exists row :: row in RowsOf(group) && shows(row, n)
  {
    if group != [] {
      var hunk := HunkOf(group, oldCount, newCount);
      assert GroupHunks(group, oldCount, newCount) == [hunk] && hunk.unifiedRows == RowsOf(group) && hunk in [hunk];
    }
  }

  /** The changed lines of a document are exactly those shown by a row of one side, and its sources are the ones given. */
  lemma ChangedLinesAreShown(oldContent: string, newContent: string, groups: seq<seq<Change>>, n: nat)
    ensures var document := DocumentOf(oldContent, newContent, groups);
            && document.base.content == oldContent && document.current.content == newContent
            && (n in document.changedOldLines <==> SomeRow(document.hunks, ShowsRemoved, n))
            && (n in document.changedNewLines <==> SomeRow(document.hunks, ShowsAdded, n))
  {
    ChangedInHunks(groups, SourceDocument(oldContent).LineCount(), SourceDocument(newContent).LineCount(), n);
  }

  /* ---- All hunks together ---- */

  function StartsAfter(start: nat, count: nat): nat {
    if count == 0 || start == 0 then start else start - 1
  }

  function LinesOf(cells: seq<Cell>): seq<Line> {
    seq(|cells|, i requires 0 <= i < |cells| => Line(cells[i].text, cells[i].hasTrailingNewline))
  }

  /** The lines from one position to another, as far as there are any. */
  function Part(lines: seq<Line>, from: nat, to: nat): seq<Line> {
    if from <= to <= |lines| then lines[from..to] else []
  }

  /** Old lines, the first `p` of them dealt with, with the hunks applied. */
  function Patched(lines: seq<Line>, hunks: seq<Hunk>, p: nat): seq<Line> {
    if hunks == [] then Part(lines, p, |lines|)
    else
      var header, at := hunks[0].header, StartsAfter(hunks[0].header.oldStart, hunks[0].header.oldCount);
      Part(lines, p, at) + LinesOf(NewCells(hunks[0].unifiedRows)) + Patched(lines, hunks[1..], at + header.oldCount)
  }

  /** New lines, the first `q` of them dealt with, with the hunks taken back. */
  function Unpatched(lines: seq<Line>, hunks: seq<Hunk>, q: nat): seq<Line> {
    if hunks == [] then Part(lines, q, |lines|)
    else
      var header, at := hunks[0].header, StartsAfter(hunks[0].header.newStart, hunks[0].header.newCount);
      Part(lines, q, at) + LinesOf(OldCells(hunks[0].unifiedRows)) + Unpatched(lines, hunks[1..], at + header.newCount)
  }

  lemma ShownPart(cells: seq<Cell>, side: Side, lines: seq<Line>, p: nat, count: nat)
    requires ShowLines(cells, side, lines, p + 1, count)
    requires p <= |lines|
    ensures p + count <= |lines| && LinesOf(cells) == lines[p..p + count]
  {
    if count > 0 {
      assert ShowsLine(cells[count - 1], side, lines);
      forall i | 0 <= i < count ensures LinesOf(cells)[i] == lines[p..p + count][i] {
        assert ShowsLine(cells[i], side, lines);
      }
    }
  }

  lemma {:induction false} EqualStretch(changes: seq<Change>, a: seq<Line>, b: seq<Line>, p: nat, q: nat)
    requires AllEqual(changes) && Walks(changes, Old, a, p) && Walks(changes, New, b, q) && p <= |a| && q <= |b|
    ensures Span(changes, Old) == Span(changes, New) == |changes| && p + |changes| <= |a| && q + |changes| <= |b|
    ensures a[p..p + |changes|] == b[q..q + |changes|]
  {
    if changes != [] {
      assert changes[0] in changes && forall c | c in changes[1..] :: c in changes;
      EqualStretch(changes[1..], a, b, p + 1, q + 1);
      assert a[p..p + |changes|] == [a[p]] + a[p + 1..p + |changes|];
      assert b[q..q + |changes|] == [b[q]] + b[q + 1..q + |changes|];
    }
  }

  /** Every group's header starts where the group stands. */
  predicate Placed(segments: seq<Segment>, p: nat, q: nat, oldCount: nat, newCount: nat) {
    segments == [] ||
    var gap, group := segments[0].gap, segments[0].group;
    var at, to := p + Span(gap, Old), q + Span(gap, New);
    var header := HeaderOf(group, oldCount, newCount);
    && (group != [] ==>
          StartsAfter(header.oldStart, header.oldCount) == at && StartsAfter(header.newStart, header.newCount) == to)
    && Placed(segments[1..], at + Span(group, Old), to + Span(group, New), oldCount, newCount)
  }

  lemma FlattenSnoc(segments: seq<Segment>, k: nat)
    requires k < |segments|
    ensures Flatten(segments[..k + 1]) == Flatten(segments[..k]) + segments[k].gap + segments[k].group
    decreases k
  {
    if k > 0 {
      FlattenSnoc(segments[1..], k - 1);
      assert segments[..k + 1][1..] == segments[1..][..k] && segments[..k][1..] == segments[1..][..k - 1];
    } else {
      assert segments[..1] == [segments[0]] && segments[..0] == [];
      assert [segments[0]][1..] == [];
    }
  }

  lemma SpanNext(segments: seq<Segment>, k: nat, side: Side)
    requires k < |segments|
    ensures Span(Flatten(segments[..k]) + segments[k].gap, side) ==
            Span(Flatten(segments[..k]), side) + Span(segments[k].gap, side)
    ensures Span(Flatten(segments[..k + 1]), side) ==
            Span(Flatten(segments[..k]), side) + Span(segments[k].gap, side) + Span(segments[k].group, side)
  {
    FlattenSnoc(segments, k);
    SpanOfConcat(Flatten(segments[..k]), segments[k].gap, side);
    SpanOfConcat(Flatten(segments[..k]) + segments[k].gap, segments[k].group, side);
  }

  /** The k-th group, if there is one, has a header that starts where the group stands. */
  predicate StandsAt(segments: seq<Segment>, k: nat, oldCount: nat, newCount: nat)
    requires k < |segments|
  {
    var before, header := Flatten(segments[..k]) + segments[k].gap, HeaderOf(segments[k].group, oldCount, newCount);
    segments[k].group != [] ==>
      StartsAfter(header.oldStart, header.oldCount) == Span(before, Old) &&
      StartsAfter(header.newStart, header.newCount) == Span(before, New)
  }

  lemma {:induction false} AllPlaced(segments: seq<Segment>, k: nat, oldCount: nat, newCount: nat)
    requires k <= |segments| && forall i | 0 <= i < |segments| :: StandsAt(segments, i, oldCount, newCount)
    ensures Placed(segments[k..], Span(Flatten(segments[..k]), Old), Span(Flatten(segments[..k]), New), oldCount, newCount)
    decreases |segments| - k
  {
    if k < |segments| {
      AllPlaced(segments, k + 1, oldCount, newCount);
      assert StandsAt(segments, k, oldCount, newCount);
      PlacedAt(segments, k, Span(Flatten(segments[..k]), Old), Span(Flatten(segments[..k]), New),
               Span(Flatten(segments[..k + 1]), Old), Span(Flatten(segments[..k + 1]), New), oldCount, newCount);
    }
  }

  lemma PlacedAt(segments: seq<Segment>, k: nat, p: nat, q: nat, p1: nat, q1: nat, oldCount: nat, newCount: nat)
    requires k < |segments| && StandsAt(segments, k, oldCount, newCount)
    requires p == Span(Flatten(segments[..k]), Old) && q == Span(Flatten(segments[..k]), New)
    requires p1 == Span(Flatten(segments[..k + 1]), Old) && q1 == Span(Flatten(segments[..k + 1]), New)
    requires Placed(segments[k + 1..], p1, q1, oldCount, newCount)
    ensures Placed(segments[k..], p, q, oldCount, newCount)
  {
    SpanNext(segments, k, Old);
    SpanNext(segments, k, New);
    assert segments[k..][0] == segments[k] && segments[k..][1..] == segments[k + 1..];
  }

  lemma HeaderStandsAt(oldContent: string, newContent: string, script: Script, k: nat)
    requires Conforms(script, SourceDocument(oldContent), SourceDocument(newContent)) && k < |script.segments|
    ensures StandsAt(script.segments, k, |SplitLines(oldContent)|, |SplitLines(newContent)|)
  {
    if script.segments[k].group != [] {
      HeaderNamesItsLines(oldContent, newContent, script, k, Old);
      HeaderNamesItsLines(oldContent, newContent, script, k, New);
    }
  }

  lemma Join<T>(s: seq<T>, x: nat, y: nat, z: nat)
    requires x <= y <= z <= |s|
    ensures s[x..y] + s[y..z] == s[x..z]
  {
  }

  lemma {:induction false} WalksEnds(changes: seq<Change>, side: Side, lines: seq<Line>, p: nat)
    requires Walks(changes, side, lines, p) && p <= |lines|
    ensures p + Span(changes, side) <= |lines|
    decreases |changes|
  {
    if changes != [] {
      WalksEnds(changes[1..], side, lines, p + Step(changes[0], side));
    }
  }

  predicate EqualGaps(segments: seq<Segment>) {
    segments == [] || (AllEqual(segments[0].gap) && EqualGaps(segments[1..]))
  }

  function Remaining(segments: seq<Segment>, tail: seq<Change>): seq<Change> {
    Flatten(segments) + tail
  }

  /** What is left of a script, from position `p` of the lines of one side. */
  predicate Left(segments: seq<Segment>, tail: seq<Change>, side: Side, lines: seq<Line>, p: nat) {
    p <= |lines| && Walks(Remaining(segments, tail), side, lines, p) && p + Span(Remaining(segments, tail), side) == |lines|
  }

  lemma RemainingNext(segments: seq<Segment>, tail: seq<Change>)
    requires segments != []
    ensures Remaining(segments, tail) == segments[0].gap + (segments[0].group + Remaining(segments[1..], tail))
  {
  }

  lemma {:induction false} LeftNext(segments: seq<Segment>, tail: seq<Change>, side: Side, lines: seq<Line>, p: nat,
                                      at: nat, next: nat)
    requires segments != [] && Left(segments, tail, side, lines, p)
    requires at == p + Span(segments[0].gap, side) && next == at + Span(segments[0].group, side)
    ensures Walks(segments[0].gap, side, lines, p) && Walks(segments[0].group, side, lines, at)
    ensures at <= next <= |lines| && Left(segments[1..], tail, side, lines, next)
  {
    RemainingNext(segments, tail);
    NextWalks(segments[0].gap, segments[0].group, Remaining(segments[1..], tail), side, lines, p);
  }

  lemma NextWalks(gap: seq<Change>, group: seq<Change>, rest: seq<Change>, side: Side, lines: seq<Line>, p: nat)
    requires Walks(gap + (group + rest), side, lines, p) && p <= |lines|
    ensures Walks(gap, side, lines, p) && Walks(group, side, lines, p + Span(gap, side))
    ensures Walks(rest, side, lines, p + Span(gap, side) + Span(group, side))
    ensures Span(gap + (group + rest), side) == Span(gap, side) + Span(group, side) + Span(rest, side)
    ensures p + Span(gap, side) + Span(group, side) <= |lines|
  {
    WalksConcat(gap, group + rest, side, lines, p);
    WalksConcat(group, rest, side, lines, p + Span(gap, side));
    SpanOfConcat(gap, group + rest, side);
    SpanOfConcat(group, rest, side);
    WalksEnds(gap, side, lines, p);
    WalksEnds(group, side, lines, p + Span(gap, side));
  }

  lemma {:induction false} GapGrows(gap: seq<Change>, a: seq<Line>, b: seq<Line>, p: nat, q: nat, x: nat, y: nat)
    requires AllEqual(gap) && Walks(gap, Old, a, p) && Walks(gap, New, b, q)
    requires x <= p <= |a| && y <= q <= |b| && a[x..p] == b[y..q]
    ensures p + Span(gap, Old) <= |a| && q + Span(gap, New) <= |b| && a[x..p + Span(gap, Old)] == b[y..q + Span(gap, New)]
  {
    EqualStretch(gap, a, b, p, q);
    Join(a, x, p, p + |gap|);
    Join(b, y, q, q + |gap|);
  }

  /** From position `x` of the old lines and `y` of the new ones on, these hunks are a patch and its reverse. */
  predicate IsPatch(a: seq<Line>, b: seq<Line>, hunks: seq<Hunk>, x: nat, y: nat) {
    x <= |a| && y <= |b| && Patched(a, hunks, x) == b[y..] && Unpatched(b, hunks, y) == a[x..]
  }

  /** What is left of a script that fits both sources, from position `p` of the old lines and `q` of the new ones. */
  predicate Ready(segments: seq<Segment>, tail: seq<Change>, a: seq<Line>, b: seq<Line>, p: nat, q: nat) {
    && AllEqual(tail) && EqualGaps(segments) && Placed(segments, p, q, |a|, |b|)
    && Left(segments, tail, Old, a, p) && Left(segments, tail, New, b, q)
  }

  /** The first segment between the positions `p`, `at` and `p1`, and `q`, `to` and `q1`. */
  predicate Stands(segment: Segment, a: seq<Line>, b: seq<Line>, p: nat, q: nat, at: nat, to: nat, p1: nat, q1: nat) {
    && at == p + Span(segment.gap, Old) && to == q + Span(segment.gap, New)
    && p1 == at + Span(segment.group, Old) && q1 == to + Span(segment.group, New) && p1 <= |a| && q1 <= |b|
    && AllEqual(segment.gap) && Walks(segment.gap, Old, a, p) && Walks(segment.gap, New, b, q)
    && Walks(segment.group, Old, a, at) && Walks(segment.group, New, b, to)
    && (segment.group != [] ==> HeaderStands(HunkOf(segment.group, |a|, |b|).header, at, to, p1, q1))
  }

  predicate HeaderStands(header: HunkHeader, at: nat, to: nat, p1: nat, q1: nat) {
    && StartsAfter(header.oldStart, header.oldCount) == at && at + header.oldCount == p1
    && StartsAfter(header.newStart, header.newCount) == to && to + header.newCount == q1
  }

  lemma {:induction false} ReadyNext(segments: seq<Segment>, tail: seq<Change>, a: seq<Line>, b: seq<Line>, p: nat, q: nat,
                                     at: nat, to: nat, p1: nat, q1: nat)
    requires segments != [] && Ready(segments, tail, a, b, p, q)
    requires at == p + Span(segments[0].gap, Old) && to == q + Span(segments[0].gap, New)
    requires p1 == at + Span(segments[0].group, Old) && q1 == to + Span(segments[0].group, New)
    ensures Stands(segments[0], a, b, p, q, at, to, p1, q1) && Ready(segments[1..], tail, a, b, p1, q1)
  {
    LeftNext(segments, tail, Old, a, p, at, p1);
    LeftNext(segments, tail, New, b, q, to, q1);
    PlacedNext(segments, p, q, |a|, |b|, at, to, p1, q1);
  }

  lemma {:induction false} StandingParts(segment: Segment, a: seq<Line>, b: seq<Line>, p: nat, q: nat, at: nat, to: nat,
                                         p1: nat, q1: nat, x: nat, y: nat)
    requires Stands(segment, a, b, p, q, at, to, p1, q1)
    requires x <= p <= |a| && y <= q <= |b| && a[x..p] == b[y..q]
    ensures x <= at <= p1 <= |a| && y <= to <= q1 <= |b| && a[x..at] == b[y..to]
    ensures segment.group == [] ==> p1 == at && q1 == to
  {
    GapGrows(segment.gap, a, b, p, q, x, y);
  }

  lemma {:induction false} StandingGroup(segment: Segment, a: seq<Line>, b: seq<Line>, p: nat, q: nat, at: nat, to: nat,
                                         p1: nat, q1: nat)
    requires Stands(segment, a, b, p, q, at, to, p1, q1) && segment.group != []
    ensures at <= p1 <= |a| && to <= q1 <= |b|
    ensures HeaderStands(HunkOf(segment.group, |a|, |b|).header, at, to, p1, q1)
    ensures LinesOf(OldCells(RowsOf(segment.group))) == a[at..p1] && LinesOf(NewCells(RowsOf(segment.group))) == b[to..q1]
  {
    GroupLines(segment.group, a, b, at, to);
  }

  /** The lines since the last hunk, `x` to `p` and `y` to `q`, are equal. */
  lemma {:induction false} SegmentsPatch(segments: seq<Segment>, tail: seq<Change>, a: seq<Line>, b: seq<Line>,
                                         p: nat, q: nat, x: nat, y: nat)
    requires Ready(segments, tail, a, b, p, q)
    requires x <= p <= |a| && y <= q <= |b| && a[x..p] == b[y..q]
    ensures IsPatch(a, b, HunksOf(Groups(segments), |a|, |b|), x, y)
    decreases |segments|
  {
    if segments == [] {
      TailPatch(tail, a, b, p, q, x, y);
    } else {
      var at, to := p + Span(segments[0].gap, Old), q + Span(segments[0].gap, New);
      var p1, q1 := at + Span(segments[0].group, Old), to + Span(segments[0].group, New);
      ReadyNext(segments, tail, a, b, p, q, at, to, p1, q1);
      StandingParts(segments[0], a, b, p, q, at, to, p1, q1, x, y);
      if segments[0].group == [] {
        SegmentsPatch(segments[1..], tail, a, b, p1, q1, x, y);
        NoHunk(segments, |a|, |b|);
      } else {
        StandingGroup(segments[0], a, b, p, q, at, to, p1, q1);
        SegmentsPatch(segments[1..], tail, a, b, p1, q1, p1, q1);
        SegmentPatch(segments, a, b, at, to, p1, q1, x, y);
      }
    }
  }

  lemma {:induction false} PlacedNext(segments: seq<Segment>, p: nat, q: nat, oldCount: nat, newCount: nat, at: nat,
                                        to: nat, p1: nat, q1: nat)
    requires segments != [] && Placed(segments, p, q, oldCount, newCount)
    requires at == p + Span(segments[0].gap, Old) && to == q + Span(segments[0].gap, New)
    requires p1 == at + Span(segments[0].group, Old) && q1 == to + Span(segments[0].group, New)
    ensures Placed(segments[1..], p1, q1, oldCount, newCount)
    ensures segments[0].group != [] ==> HeaderStands(HunkOf(segments[0].group, oldCount, newCount).header, at, to, p1, q1)
  {
  }

  lemma {:induction false} SegmentPatch(segments: seq<Segment>, a: seq<Line>, b: seq<Line>, at: nat, to: nat, p: nat,
                                        q: nat, x: nat, y: nat)
    requires segments != [] && segments[0].group != []
    requires x <= at <= p <= |a| && y <= to <= q <= |b| && a[x..at] == b[y..to]
    requires IsPatch(a, b, HunksOf(Groups(segments[1..]), |a|, |b|), p, q)
    requires HeaderStands(HunkOf(segments[0].group, |a|, |b|).header, at, to, p, q)
    requires LinesOf(OldCells(RowsOf(segments[0].group))) == a[at..p]
    requires LinesOf(NewCells(RowsOf(segments[0].group))) == b[to..q]
    ensures IsPatch(a, b, HunksOf(Groups(segments), |a|, |b|), x, y)
  {
    FirstHunk(segments, |a|, |b|);
    HunkPatch(HunkOf(segments[0].group, |a|, |b|), HunksOf(Groups(segments[1..]), |a|, |b|), a, b, at, to, p, q, x, y);
  }

  lemma {:induction false} TailPatch(tail: seq<Change>, a: seq<Line>, b: seq<Line>, p: nat, q: nat, x: nat, y: nat)
    requires AllEqual(tail) && Left([], tail, Old, a, p) && Left([], tail, New, b, q)
    requires x <= p && y <= q && a[x..p] == b[y..q]
    ensures IsPatch(a, b, [], x, y)
  {
    assert Remaining([], tail) == tail;
    assert p + Span(tail, Old) == |a| && q + Span(tail, New) == |b|;
    GapGrows(tail, a, b, p, q, x, y);
  }

  lemma {:induction false} NoHunk(segments: seq<Segment>, oldCount: nat, newCount: nat)
    requires segments != [] && segments[0].group == []
    ensures HunksOf(Groups(segments), oldCount, newCount) == HunksOf(Groups(segments[1..]), oldCount, newCount)
  {
    assert Groups(segments)[1..] == Groups(segments[1..]);
  }

  lemma {:induction false} GroupLines(group: seq<Change>, a: seq<Line>, b: seq<Line>, at: nat, to: nat)
    requires Walks(group, Old, a, at) && Walks(group, New, b, to)
    requires at <= |a| && to <= |b|
    ensures at + Span(group, Old) <= |a| && to + Span(group, New) <= |b|
    ensures LinesOf(OldCells(RowsOf(group))) == a[at..at + Span(group, Old)]
    ensures LinesOf(NewCells(RowsOf(group))) == b[to..to + Span(group, New)]
  {
    GroupShows(group, a, b, at, to);
    ShownPart(OldCells(RowsOf(group)), Old, a, at, Span(group, Old));
    ShownPart(NewCells(RowsOf(group)), New, b, to, Span(group, New));
  }

  lemma {:induction false} HunkPatch(hunk: Hunk, rest: seq<Hunk>, a: seq<Line>, b: seq<Line>, at: nat, to: nat, p: nat,
                                       q: nat, x: nat, y: nat)
    requires x <= at <= p <= |a| && y <= to <= q <= |b| && a[x..at] == b[y..to] && IsPatch(a, b, rest, p, q)
    requires HeaderStands(hunk.header, at, to, p, q)
    requires LinesOf(OldCells(hunk.unifiedRows)) == a[at..p] && LinesOf(NewCells(hunk.unifiedRows)) == b[to..q]
    ensures IsPatch(a, b, [hunk] + rest, x, y)
  {
    PatchedNext(hunk, rest, a, at, p, x);
    UnpatchedNext(hunk, rest, b, to, q, y);
    ThreeParts(b, y, to, q);
    ThreeParts(a, x, at, p);
  }

  lemma {:induction false} FirstHunk(segments: seq<Segment>, oldCount: nat, newCount: nat)
    requires segments != [] && segments[0].group != []
    ensures HunksOf(Groups(segments), oldCount, newCount) ==
            [HunkOf(segments[0].group, oldCount, newCount)] + HunksOf(Groups(segments[1..]), oldCount, newCount)
  {
    assert Groups(segments)[1..] == Groups(segments[1..]);
  }

  lemma ThreeParts<T>(s: seq<T>, x: nat, y: nat, z: nat)
    requires x <= y <= z <= |s|
    ensures s[x..] == s[x..y] + s[y..z] + s[z..]
  {
  }

  lemma {:induction false} PatchedNext(hunk: Hunk, rest: seq<Hunk>, a: seq<Line>, at: nat, p: nat, x: nat)
    requires StartsAfter(hunk.header.oldStart, hunk.header.oldCount) == at && at + hunk.header.oldCount == p
    requires x <= at <= |a|
    ensures Patched(a, [hunk] + rest, x) == a[x..at] + LinesOf(NewCells(hunk.unifiedRows)) + Patched(a, rest, p)
  {
    assert ([hunk] + rest)[0] == hunk && ([hunk] + rest)[1..] == rest;
  }

  lemma {:induction false} UnpatchedNext(hunk: Hunk, rest: seq<Hunk>, b: seq<Line>, to: nat, q: nat, y: nat)
    requires StartsAfter(hunk.header.newStart, hunk.header.newCount) == to && to + hunk.header.newCount == q
    requires y <= to <= |b|
    ensures Unpatched(b, [hunk] + rest, y) == b[y..to] + LinesOf(OldCells(hunk.unifiedRows)) + Unpatched(b, rest, q)
  {
    assert ([hunk] + rest)[0] == hunk && ([hunk] + rest)[1..] == rest;
  }

  /** The hunks of a document are a patch: applied at the old lines their headers name, they turn the old source into the new
      one, and taken back they turn the new one into the old one. */
  lemma HunksArePatch(oldContent: string, newContent: string, script: Script)
    requires Conforms(script, SourceDocument(oldContent), SourceDocument(newContent))
    ensures var hunks := DocumentOf(oldContent, newContent, Groups(script.segments)).hunks;
            && Patched(SplitLines(oldContent), hunks, 0) == SplitLines(newContent)
            && Unpatched(SplitLines(newContent), hunks, 0) == SplitLines(oldContent)
  {
    forall k: nat | k < |script.segments|
      ensures StandsAt(script.segments, k, |SplitLines(oldContent)|, |SplitLines(newContent)|)
    {
      HeaderStandsAt(oldContent, newContent, script, k);
    }
    AllPlaced(script.segments, 0, |SplitLines(oldContent)|, |SplitLines(newContent)|);
    assert script.segments[0..] == script.segments && script.segments[..0] == [];
    AllGapsEqual(script.segments);
    SegmentsPatch(script.segments, script.tail, SplitLines(oldContent), SplitLines(newContent), 0, 0, 0, 0);
  }

  lemma {:induction false} AllGapsEqual(segments: seq<Segment>)
    requires forall k | 0 <= k < |segments| :: AllEqual(segments[k].gap)
    ensures EqualGaps(segments)
  {
    if segments != [] {
      AllGapsEqual(segments[1..]);
    }
  }

  /* ---- There are such scripts ---- */

  function Deletions(lines: seq<Line>, p: nat): seq<Change>
    requires p <= |lines|
    decreases |lines| - p
  {
    if p == |lines| then []
    else [Change(Delete, Some(p), None, lines[p].text + if lines[p].newline then "\n" else "")] + Deletions(lines, p + 1)
  }

  function Insertions(lines: seq<Line>, q: nat): seq<Change>
    requires q <= |lines|
    decreases |lines| - q
  {
    if q == |lines| then []
    else [Change(Insert, None, Some(q), lines[q].text + if lines[q].newline then "\n" else "")] + Insertions(lines, q + 1)
  }

  /** Every old line deleted and every new line inserted, as one group. */
  function Replacement(a: seq<Line>, b: seq<Line>): Script {
    if a == [] && b == [] then Script([], []) else Script([Segment([], Deletions(a, 0) + Insertions(b, 0))], [])
  }

  lemma ValueIsLine(line: Line)
    requires '\n' !in line.text
    ensures LineOf(line.text + if line.newline then "\n" else "") == line
  {
    var value := line.text + if line.newline then "\n" else "";
    if line.newline {
      assert value[..|value| - 1] == line.text;
    } else {
      assert value == line.text;
    }
  }

  lemma {:induction false} LinesArePlain(content: string)
    ensures forall line | line in SplitLines(content) :: '\n' !in line.text
    decreases |content|
  {
    if content != "" {
      var end := LineEnd(content);
      if end < |content| {
        LinesArePlain(content[end + 1..]);
      } else {
        assert content[..end] == content;
      }
    }
  }

  lemma {:induction false} DeletionsWalk(lines: seq<Line>, p: nat, other: seq<Line>, q: nat)
    requires p <= |lines| && forall line | line in lines :: '\n' !in line.text
    ensures Walks(Deletions(lines, p), Old, lines, p) && Span(Deletions(lines, p), Old) == |lines| - p
    ensures Walks(Deletions(lines, p), New, other, q) && Span(Deletions(lines, p), New) == 0 && NoEqual(Deletions(lines, p))
    decreases |lines| - p
  {
    if p < |lines| {
      ValueIsLine(lines[p]);
      DeletionsWalk(lines, p + 1, other, q);
    }
  }

  lemma {:induction false} InsertionsWalk(lines: seq<Line>, q: nat, other: seq<Line>, p: nat)
    requires q <= |lines| && forall line | line in lines :: '\n' !in line.text
    ensures Walks(Insertions(lines, q), New, lines, q) && Span(Insertions(lines, q), New) == |lines| - q
    ensures Walks(Insertions(lines, q), Old, other, p) && Span(Insertions(lines, q), Old) == 0
    ensures NoEqual(Insertions(lines, q))
    decreases |lines| - q
  {
    if q < |lines| {
      ValueIsLine(lines[q]);
      InsertionsWalk(lines, q + 1, other, p);
    }
  }

  lemma WalkOn(x: seq<Change>, y: seq<Change>, side: Side, lines: seq<Line>, n: nat, m: nat)
    requires Walks(x, side, lines, 0) && Span(x, side) == n && Walks(y, side, lines, n) && Span(y, side) == m
    ensures Walks(x + y, side, lines, 0) && Span(x + y, side) == n + m
  {
    WalksConcat(x, y, side, lines, 0);
    SpanOfConcat(x, y, side);
  }

  lemma ReplacementWalks(a: seq<Line>, b: seq<Line>)
    requires (forall line | line in a :: '\n' !in line.text) && (forall line | line in b :: '\n' !in line.text)
    ensures var group := Deletions(a, 0) + Insertions(b, 0);
            && Walks(group, Old, a, 0) && Walks(group, New, b, 0) && NoEqual(group)
            && Span(group, Old) == |a| && Span(group, New) == |b|
  {
    DeletionsWalk(a, 0, b, 0);
    InsertionsWalk(b, 0, a, |a|);
    WalkOn(Deletions(a, 0), Insertions(b, 0), Old, a, |a|, 0);
    WalkOn(Deletions(a, 0), Insertions(b, 0), New, b, 0, |b|);
  }

  lemma OneSegment(group: seq<Change>)
    ensures Whole(Script([Segment([], group)], [])) == group
  {
    var segments := [Segment([], group)];
    assert segments[1..] == [] && Flatten(segments) == [] + group + Flatten([]);
    assert Flatten(segments) == group && group + [] == group;
  }

  lemma OneGroupConforms(group: seq<Change>, base: SourceDocument, current: SourceDocument)
    requires Walks(group, Old, base.Lines(), 0) && Walks(group, New, current.Lines(), 0) && NoEqual(group)
    requires Span(group, Old) == base.LineCount() && Span(group, New) == current.LineCount()
    ensures Conforms(Script([Segment([], group)], []), base, current)
  {
    OneSegment(group);
  }

  /** Any two sources have a conforming script, whose values are their lines as they stand. */
  lemma ScriptsExist(oldContent: string, newContent: string)
    ensures Conforms(Replacement(SplitLines(oldContent), SplitLines(newContent)), SourceDocument(oldContent),
                     SourceDocument(newContent))
  {
    LinesArePlain(oldContent);
    LinesArePlain(newContent);
    ReplacementWalks(SplitLines(oldContent), SplitLines(newContent));
    if SplitLines(oldContent) != [] || SplitLines(newContent) != [] {
      OneGroupConforms(Deletions(SplitLines(oldContent), 0) + Insertions(SplitLines(newContent), 0),
                       SourceDocument(oldContent), SourceDocument(newContent));
    }
  }
}
