/** Full File mode: one complete source with the other side's changed lines re-inserted at anchors
    computed from the hunks alone (crates/diff/src/lib.rs). */
module FullFile {
  import opened Wrappers
  import opened Document

  datatype FullFileRow = FullFileRow(side: Side, lineNumber: nat, text: string, changed: bool, hasTrailingNewline: bool)

  /** A row of the other side, to be shown once `anchor` lines of the complete side have been shown. */
  datatype Gate = Gate(anchor: nat, row: FullFileRow)

  /* ---- The projections ---- */

  function SourceRow(document: DiffDocument, side: Side, k: nat): FullFileRow
    requires k < document.SourceOn(side).LineCount()
  {
    var source := document.SourceOn(side);
    FullFileRow(side, k + 1, source.Lines()[k].text, k + 1 in document.ChangedOn(side),
                k + 1 < source.LineCount() || source.HasFinalNewline())
  }

  function FullFileRows(document: DiffDocument, side: Side): (rows: seq<FullFileRow>)
    ensures |rows| == document.SourceOn(side).LineCount()
    ensures forall k | 0 <= k < |rows| :: rows[k] == SourceRow(document, side, k)
  {
    var count := document.SourceOn(side).LineCount();
    seq(count, k requires 0 <= k < count => SourceRow(document, side, k))
  }

  function GateKind(side: Side): LineKind {
    if side.New? then Removal else Addition
  }

  function NextLine(rows: seq<UnifiedRow>, side: Side): Option<nat> {
    if rows == [] then None
    else if rows[0].CellOn(side).Some? then Some(rows[0].CellOn(side).value.lineNumber)
    else NextLine(rows[1..], side)
  }

  function PreviousLine(rows: seq<UnifiedRow>, side: Side): Option<nat> {
    if rows == [] then None
    else
      var last := rows[|rows| - 1];
      if last.CellOn(side).Some? then Some(last.CellOn(side).value.lineNumber)
      else PreviousLine(rows[..|rows| - 1], side)
  }

  function Predecessor(n: nat): nat {
    if n == 0 then 0 else n - 1
  }

  /** The following aligned line decides, else the previous one, else the header. */
  function Anchor(hunk: Hunk, index: nat, side: Side, limit: nat): nat
    requires index < |hunk.unifiedRows|
  {
    var next := NextLine(hunk.unifiedRows[index + 1..], side);
    var previous := PreviousLine(hunk.unifiedRows[..index], side);
    var anchor :=
      if next.Some? then Predecessor(next.value)
      else if previous.Some? then previous.value
      else hunk.header.StartOn(side);
    if anchor < limit then anchor else limit
  }

  function GateRow(cell: Cell, side: Side): FullFileRow {
    FullFileRow(Other(side), cell.lineNumber, cell.text, true, cell.hasTrailingNewline)
  }

  function GateAt(hunk: Hunk, index: nat, side: Side, limit: nat): seq<Gate>
    requires index < |hunk.unifiedRows|
  {
    var row := hunk.unifiedRows[index];
    if row.kind == GateKind(side) && row.CellOn(Other(side)).Some?
    then [Gate(Anchor(hunk, index, side, limit), GateRow(row.CellOn(Other(side)).value, side))]
    else []
  }

  function GatesUpTo(hunk: Hunk, index: nat, side: Side, limit: nat): seq<Gate>
    requires index <= |hunk.unifiedRows|
  {
    if index == 0 then []
    else GatesUpTo(hunk, index - 1, side, limit) + GateAt(hunk, index - 1, side, limit)
  }

  function Gates(hunks: seq<Hunk>, side: Side, limit: nat): seq<Gate> {
    if hunks == [] then []
    else
      var last := hunks[|hunks| - 1];
      Gates(hunks[..|hunks| - 1], side, limit) + GatesUpTo(last, |last.unifiedRows|, side, limit)
  }

  function Select(gates: seq<Gate>, anchor: nat): seq<FullFileRow> {
    if gates == [] then []
    else if gates[0].anchor == anchor then [gates[0].row] + Select(gates[1..], anchor)
    else Select(gates[1..], anchor)
  }

  function Weave(gates: seq<Gate>, rows: seq<FullFileRow>, k: nat): seq<FullFileRow>
    requires k <= |rows|
    decreases |rows| - k
  {
    Select(gates, k) + if k == |rows| then [] else [rows[k]] + Weave(gates, rows, k + 1)
  }

  function View(document: DiffDocument, side: Side): seq<FullFileRow> {
    var rows := FullFileRows(document, side);
    Weave(Gates(document.hunks, side, |rows|), rows, 0)
  }

  lemma {:induction false} SelectConcat(a: seq<Gate>, b: seq<Gate>, anchor: nat)
    ensures Select(a + b, anchor) == Select(a, anchor) + Select(b, anchor)
  {
    if a == [] {
      assert a + b == b;
    } else {
      assert (a + b)[1..] == a[1..] + b && (a + b)[0] == a[0];
      SelectConcat(a[1..], b, anchor);
    }
  }

  lemma SelectStep(hunk: Hunk, index: nat, side: Side, limit: nat, a: nat)
    requires index < |hunk.unifiedRows|
    ensures Select(GatesUpTo(hunk, index + 1, side, limit), a) ==
            Select(GatesUpTo(hunk, index, side, limit), a) + Select(GateAt(hunk, index, side, limit), a)
  {
    SelectConcat(GatesUpTo(hunk, index, side, limit), GateAt(hunk, index, side, limit), a);
  }

  /** Adds the gate of one row, if it has one, to the bucket of its anchor. */
  method CollectRow(hunk: Hunk, index: nat, side: Side, limit: nat, into: seq<seq<FullFileRow>>)
    returns (buckets: seq<seq<FullFileRow>>)
    requires |into| == limit + 1 && index < |hunk.unifiedRows|
    ensures |buckets| == limit + 1
    ensures forall a | 0 <= a <= limit :: buckets[a] == into[a] + Select(GateAt(hunk, index, side, limit), a)
  {
    buckets := into;
    var row := hunk.unifiedRows[index];
    if row.kind == GateKind(side) && row.CellOn(Other(side)).Some? {
      var anchor := Anchor(hunk, index, side, limit);
      buckets := buckets[anchor := buckets[anchor] + [GateRow(row.CellOn(Other(side)).value, side)]];
    }
  }

  /** Adds the gates of one hunk to the buckets of their anchors. */
  method CollectHunk(hunk: Hunk, side: Side, limit: nat, into: seq<seq<FullFileRow>>)
    returns (buckets: seq<seq<FullFileRow>>)
    requires |into| == limit + 1
    ensures |buckets| == limit + 1
    ensures forall a | 0 <= a <= limit ::
              buckets[a] == into[a] + Select(GatesUpTo(hunk, |hunk.unifiedRows|, side, limit), a)
  {
    buckets := into;
    for index := 0 to |hunk.unifiedRows|
      invariant |buckets| == limit + 1
      invariant forall a | 0 <= a <= limit :: buckets[a] == into[a] + Select(GatesUpTo(hunk, index, side, limit), a)
    {
      buckets := CollectRow(hunk, index, side, limit, buckets);
      forall a | 0 <= a <= limit
        ensures buckets[a] == into[a] + Select(GatesUpTo(hunk, index + 1, side, limit), a)
      {
        SelectStep(hunk, index, side, limit, a);
      }
    }
  }

  /** Fills one bucket per anchor from the hunks. */
  method CollectGates(hunks: seq<Hunk>, side: Side, limit: nat) returns (buckets: seq<seq<FullFileRow>>)
    ensures |buckets| == limit + 1
    ensures forall a | 0 <= a <= limit :: buckets[a] == Select(Gates(hunks, side, limit), a)
  {
    buckets := seq(limit + 1, _ => []);
    for h := 0 to |hunks|
      invariant |buckets| == limit + 1
      invariant forall a | 0 <= a <= limit :: buckets[a] == Select(Gates(hunks[..h], side, limit), a)
    {
      buckets := CollectHunk(hunks[h], side, limit, buckets);
      assert hunks[..h + 1][..h] == hunks[..h];
      forall a | 0 <= a <= limit ensures buckets[a] == Select(Gates(hunks[..h + 1], side, limit), a) {
        SelectConcat(Gates(hunks[..h], side, limit), GatesUpTo(hunks[h], |hunks[h].unifiedRows|, side, limit), a);
      }
    }
    assert hunks[..|hunks|] == hunks;
  }

  lemma AppendStep(done: seq<FullFileRow>, bucket: seq<FullFileRow>, row: FullFileRow, rest: seq<FullFileRow>)
    ensures done + (bucket + ([row] + rest)) == (done + bucket + [row]) + rest
  {
  }

  method WeaveRows(buckets: seq<seq<FullFileRow>>, shown: seq<FullFileRow>, ghost gates: seq<Gate>)
    returns (rows: seq<FullFileRow>)
    requires |buckets| == |shown| + 1
    requires forall a | 0 <= a <= |shown| :: buckets[a] == Select(gates, a)
    ensures rows == Weave(gates, shown, 0)
  {
    rows := [];
    for k := 0 to |shown|
      invariant rows + Weave(gates, shown, k) == Weave(gates, shown, 0)
    {
      AppendStep(rows, buckets[k], shown[k], Weave(gates, shown, k + 1));
      rows := rows + buckets[k] + [shown[k]];
    }
    rows := rows + buckets[|shown|];
  }

  method FullFileView(document: DiffDocument, side: Side) returns (rows: seq<FullFileRow>)
    ensures rows == View(document, side)
  {
    var shown := FullFileRows(document, side);
    var buckets := CollectGates(document.hunks, side, |shown|);
    rows := WeaveRows(buckets, shown, Gates(document.hunks, side, |shown|));
  }

  method FullFileCurrentRows(document: DiffDocument) returns (rows: seq<FullFileRow>)
    ensures rows == View(document, New)
  {
    rows := FullFileView(document, New);
  }

  method FullFileBaseRows(document: DiffDocument) returns (rows: seq<FullFileRow>)
    ensures rows == View(document, Old)
  {
    rows := FullFileView(document, Old);
  }

  /* ---- The reference: the whole script, rendered line by line ---- */

  function RenderChange(c: Change, side: Side): FullFileRow {
    var on := if Has(c.tag, side) then side else Other(side);
    FullFileRow(on, c.IndexOn(on).GetOr(0) + 1, LineOf(c.value).text, !c.tag.Equal?, LineOf(c.value).newline)
  }

  function Render(changes: seq<Change>, side: Side): (rows: seq<FullFileRow>)
    ensures |rows| == |changes|
    ensures forall k | 0 <= k < |rows| :: rows[k] == RenderChange(changes[k], side)
  {
    seq(|changes|, k requires 0 <= k < |changes| => RenderChange(changes[k], side))
  }

  function Kept(changes: seq<Change>, side: Side): seq<FullFileRow> {
    if changes == [] then []
    else (if Has(changes[0].tag, side) then [RenderChange(changes[0], side)] else []) + Kept(changes[1..], side)
  }

  function ScriptGates(changes: seq<Change>, side: Side, p: nat): seq<Gate> {
    if changes == [] then []
    else if Has(changes[0].tag, side) then ScriptGates(changes[1..], side, p + 1)
    else [Gate(p, RenderChange(changes[0], side))] + ScriptGates(changes[1..], side, p)
  }

  /* ---- Anchors computed from a hunk are the true positions ---- */

  lemma {:induction false} NextLineIs(changes: seq<Change>, side: Side, lines: seq<Line>, p: nat)
    requires Walks(changes, side, lines, p)
    ensures NextLine(RowsOf(changes), side) == if Span(changes, side) > 0 then Some(p + 1) else None
  {
    if changes != [] {
      assert RowsOf(changes)[1..] == RowsOf(changes[1..]);
      if !Has(changes[0].tag, side) {
        NextLineIs(changes[1..], side, lines, p);
      }
    }
  }

  lemma LastRow(changes: seq<Change>, side: Side)
    requires changes != []
    ensures var n := |changes| - 1;
            PreviousLine(RowsOf(changes), side) ==
            if Has(changes[n].tag, side) then Some(changes[n].IndexOn(side).GetOr(0) + 1)
            else PreviousLine(RowsOf(changes[..n]), side)
  {
    RowsAround(changes, |changes| - 1);
  }

  lemma {:induction false} PreviousLineIs(changes: seq<Change>, side: Side, lines: seq<Line>, p: nat)
    requires Walks(changes, side, lines, p)
    ensures PreviousLine(RowsOf(changes), side) ==
            if Span(changes, side) > 0 then Some(p + Span(changes, side)) else None
    decreases |changes|
  {
    if changes != [] {
      var n := |changes| - 1;
      LastRow(changes, side);
      SpanAround(changes, side, n);
      assert changes[..n + 1] == changes;
      WalksAround(changes, side, lines, p, n);
      if !Has(changes[n].tag, side) {
        PreviousLineIs(changes[..n], side, lines, p);
      }
    }
  }

  lemma RowsAround(group: seq<Change>, k: nat)
    requires k < |group|
    ensures RowsOf(group)[k + 1..] == RowsOf(group[k + 1..])
    ensures RowsOf(group)[..k] == RowsOf(group[..k])
  {
  }

  lemma NextAround(group: seq<Change>, k: nat, side: Side, lines: seq<Line>, p: nat)
    requires Walks(group, side, lines, p)
    requires k < |group| && !Has(group[k].tag, side)
    ensures NextLine(RowsOf(group[k + 1..]), side) ==
            if Span(group[k + 1..], side) > 0 then Some(p + Span(group[..k], side) + 1) else None
  {
    WalksFrom(group, k, side, lines, p);
    NextLineIs(group[k + 1..], side, lines, p + Span(group[..k], side));
  }

  lemma WalksFrom(group: seq<Change>, k: nat, side: Side, lines: seq<Line>, p: nat)
    requires Walks(group, side, lines, p) && k < |group| && !Has(group[k].tag, side)
    ensures Walks(group[k + 1..], side, lines, p + Span(group[..k], side))
  {
    WalksAround(group, side, lines, p, k);
  }

  lemma PreviousAround(group: seq<Change>, k: nat, side: Side, lines: seq<Line>, p: nat)
    requires Walks(group, side, lines, p)
    requires k < |group|
    ensures PreviousLine(RowsOf(group[..k]), side) ==
            if Span(group[..k], side) > 0 then Some(p + Span(group[..k], side)) else None
  {
    WalksAround(group, side, lines, p, k);
    PreviousLineIs(group[..k], side, lines, p);
  }

  /** The lines next to a row, when `before` lines of the side come before it in the hunk and `after` after it. */
  predicate Neighbours(rows: seq<UnifiedRow>, k: nat, side: Side, p: nat, before: nat, after: nat)
    requires k < |rows|
  {
    && NextLine(rows[k + 1..], side) == (if after > 0 then Some(p + before + 1) else None)
    && PreviousLine(rows[..k], side) == (if before > 0 then Some(p + before) else None)
  }

  lemma AnchorFromNeighbours(hunk: Hunk, k: nat, side: Side, limit: nat, p: nat, before: nat, after: nat)
    requires k < |hunk.unifiedRows| && Neighbours(hunk.unifiedRows, k, side, p, before, after)
    requires p + before + after <= limit
    requires before + after == 0 ==> limit == 0
    ensures Anchor(hunk, k, side, limit) == p + before
  {
  }

  lemma NeighboursIn(group: seq<Change>, k: nat, side: Side, lines: seq<Line>, p: nat)
    requires Walks(group, side, lines, p) && k < |group| && !Has(group[k].tag, side)
    ensures Neighbours(RowsOf(group), k, side, p, Span(group[..k], side), Span(group[k + 1..], side))
  {
    RowsAround(group, k);
    NextAround(group, k, side, lines, p);
    PreviousAround(group, k, side, lines, p);
  }

  lemma SpanParts(group: seq<Change>, k: nat, side: Side, limit: nat, p: nat)
    requires k < |group| && !Has(group[k].tag, side) && p + Span(group, side) <= limit
    requires Span(group, side) == 0 ==> limit == 0
    ensures p + Span(group[..k], side) + Span(group[k + 1..], side) <= limit
    ensures Span(group[..k], side) + Span(group[k + 1..], side) == 0 ==> limit == 0
  {
    SpanAround(group, side, k);
  }

  lemma AnchorIs(hunk: Hunk, group: seq<Change>, k: nat, side: Side, limit: nat, lines: seq<Line>, p: nat)
    requires hunk.unifiedRows == RowsOf(group) && Walks(group, side, lines, p)
    requires k < |group| && !Has(group[k].tag, side)
    requires p + Span(group, side) <= limit
    requires Span(group, side) == 0 ==> limit == 0
    ensures Anchor(hunk, k, side, limit) == p + Span(group[..k], side)
  {
    SpanParts(group, k, side, limit, p);
    NeighboursIn(group, k, side, lines, p);
    AnchorFromNeighbours(hunk, k, side, limit, p, Span(group[..k], side), Span(group[k + 1..], side));
  }

  lemma {:induction false} ScriptGatesConcat(a: seq<Change>, b: seq<Change>, side: Side, p: nat)
    ensures ScriptGates(a + b, side, p) == ScriptGates(a, side, p) + ScriptGates(b, side, p + Span(a, side))
  {
    if a == [] {
      assert a + b == b;
    } else {
      assert (a + b)[1..] == a[1..] + b;
      ScriptGatesConcat(a[1..], b, side, if Has(a[0].tag, side) then p + 1 else p);
    }
  }

  lemma {:induction false} EqualHasNoGates(changes: seq<Change>, side: Side, p: nat)
    requires AllEqual(changes)
    ensures ScriptGates(changes, side, p) == []
  {
    if changes != [] {
      EqualHasNoGates(changes[1..], side, p + 1);
    }
  }

  lemma OneGate(hunk: Hunk, group: seq<Change>, k: nat, side: Side, limit: nat, at: nat)
    requires hunk.unifiedRows == RowsOf(group) && k < |group|
    requires !Has(group[k].tag, side) ==> Anchor(hunk, k, side, limit) == at
    ensures GateAt(hunk, k, side, limit) == ScriptGates([group[k]], side, at)
  {
    assert hunk.unifiedRows[k] == RowOf(group[k]);
    assert [group[k]][1..] == [];
  }

  lemma GateIs(hunk: Hunk, group: seq<Change>, k: nat, side: Side, limit: nat, lines: seq<Line>, p: nat)
    requires hunk.unifiedRows == RowsOf(group) && Walks(group, side, lines, p)
    requires k < |group|
    requires p + Span(group, side) <= limit
    requires Span(group, side) == 0 ==> limit == 0
    ensures GateAt(hunk, k, side, limit) == ScriptGates([group[k]], side, p + Span(group[..k], side))
  {
    if !Has(group[k].tag, side) {
      AnchorIs(hunk, group, k, side, limit, lines, p);
    }
    OneGate(hunk, group, k, side, limit, p + Span(group[..k], side));
  }

  lemma ScriptGatesSnoc(group: seq<Change>, k: nat, side: Side, p: nat)
    requires k < |group|
    ensures ScriptGates(group[..k + 1], side, p) ==
            ScriptGates(group[..k], side, p) + ScriptGates([group[k]], side, p + Span(group[..k], side))
  {
    assert group[..k + 1] == group[..k] + [group[k]];
    ScriptGatesConcat(group[..k], [group[k]], side, p);
  }

  /** The gate of one row is at its change's true position. */
  predicate GateFits(hunk: Hunk, group: seq<Change>, m: nat, side: Side, limit: nat, p: nat)
    requires m < |group| == |hunk.unifiedRows|
  {
    GateAt(hunk, m, side, limit) == ScriptGates([group[m]], side, p + Span(group[..m], side))
  }

  lemma OneGateMore(hunk: Hunk, group: seq<Change>, k: nat, side: Side, limit: nat, p: nat)
    requires k < |group| == |hunk.unifiedRows| && GateFits(hunk, group, k, side, limit, p)
    requires GatesUpTo(hunk, k, side, limit) == ScriptGates(group[..k], side, p)
    ensures GatesUpTo(hunk, k + 1, side, limit) == ScriptGates(group[..k + 1], side, p)
  {
    ScriptGatesSnoc(group, k, side, p);
  }

  lemma {:induction false} HunkGates(hunk: Hunk, group: seq<Change>, k: nat, side: Side, limit: nat, p: nat)
    requires k <= |group| == |hunk.unifiedRows|
    requires forall m | 0 <= m < k :: GateFits(hunk, group, m, side, limit, p)
    ensures GatesUpTo(hunk, k, side, limit) == ScriptGates(group[..k], side, p)
  {
    if k > 0 {
      HunkGates(hunk, group, k - 1, side, limit, p);
      assert GateFits(hunk, group, k - 1, side, limit, p);
      OneGateMore(hunk, group, k - 1, side, limit, p);
    }
  }

  lemma {:induction false} GatesConcat(a: seq<Hunk>, b: seq<Hunk>, side: Side, limit: nat)
    ensures Gates(a + b, side, limit) == Gates(a, side, limit) + Gates(b, side, limit)
    decreases |b|
  {
    if b == [] {
      assert a + b == a;
    } else {
      assert (a + b)[..|a + b| - 1] == a + b[..|b| - 1];
      GatesConcat(a, b[..|b| - 1], side, limit);
    }
  }

  lemma GroupGates(group: seq<Change>, oldCount: nat, newCount: nat, side: Side, limit: nat, lines: seq<Line>, p: nat)
    requires Walks(group, side, lines, p)
    requires p + Span(group, side) <= limit
    requires group != [] && Span(group, side) == 0 ==> limit == 0
    ensures Gates(GroupHunks(group, oldCount, newCount), side, limit) == ScriptGates(group, side, p)
  {
    if group != [] {
      var hunk := HunkOf(group, oldCount, newCount);
      forall m | 0 <= m < |group| ensures GateFits(hunk, group, m, side, limit, p) {
        GateIs(hunk, group, m, side, limit, lines, p);
      }
      HunkGates(hunk, group, |group|, side, limit, p);
      assert group[..|group|] == group;
      OneHunk(hunk, side, limit);
    }
  }

  lemma OneHunk(hunk: Hunk, side: Side, limit: nat)
    ensures Gates([hunk], side, limit) == GatesUpTo(hunk, |hunk.unifiedRows|, side, limit)
  {
    assert [hunk][..0] == [];
  }

  function Rest(script: Script): Script
    requires script.segments != []
  {
    Script(script.segments[1..], script.tail)
  }

  function GroupStart(script: Script, side: Side, p: nat): nat
    requires script.segments != []
  {
    p + Span(script.segments[0].gap, side)
  }

  function RestStart(script: Script, side: Side, p: nat): nat
    requires script.segments != []
  {
    p + Span(script.segments[0].gap, side) + Span(script.segments[0].group, side)
  }

  lemma WholeStep(script: Script)
    requires script.segments != []
    ensures Whole(script) == script.segments[0].gap + (script.segments[0].group + Whole(Rest(script)))
    ensures Groups(script.segments) == [script.segments[0].group] + Groups(script.segments[1..])
  {
  }

  lemma WalksStep(script: Script, side: Side, lines: seq<Line>, p: nat)
    requires script.segments != [] && Walks(Whole(script), side, lines, p)
    ensures Walks(script.segments[0].group, side, lines, GroupStart(script, side, p))
    ensures Walks(Whole(Rest(script)), side, lines, RestStart(script, side, p))
    ensures p + Span(Whole(script), side) == RestStart(script, side, p) + Span(Whole(Rest(script)), side)
  {
    var gap, group, rest := script.segments[0].gap, script.segments[0].group, Whole(Rest(script));
    WholeStep(script);
    WalksConcat(gap, group + rest, side, lines, p);
    WalksConcat(group, rest, side, lines, p + Span(gap, side));
    SpanOfConcat(gap, group + rest, side);
    SpanOfConcat(group, rest, side);
  }

  lemma ScriptGatesStep(script: Script, side: Side, p: nat)
    requires script.segments != [] && AllEqual(script.segments[0].gap)
    ensures ScriptGates(Whole(script), side, p) ==
            ScriptGates(script.segments[0].group, side, GroupStart(script, side, p)) +
            ScriptGates(Whole(Rest(script)), side, RestStart(script, side, p))
  {
    var gap, group, rest := script.segments[0].gap, script.segments[0].group, Whole(Rest(script));
    WholeStep(script);
    ScriptGatesConcat(gap, group + rest, side, p);
    ScriptGatesConcat(group, rest, side, p + Span(gap, side));
    EqualHasNoGates(gap, side, p);
  }

  lemma HunksStep(groups: seq<seq<Change>>, oldCount: nat, newCount: nat, side: Side, limit: nat)
    requires groups != []
    ensures Gates(HunksOf(groups, oldCount, newCount), side, limit) ==
            Gates(GroupHunks(groups[0], oldCount, newCount), side, limit) +
            Gates(HunksOf(groups[1..], oldCount, newCount), side, limit)
  {
    GatesConcat(GroupHunks(groups[0], oldCount, newCount), HunksOf(groups[1..], oldCount, newCount), side, limit);
  }

  predicate Guarded(segments: seq<Segment>, side: Side, limit: nat) {
    segments == [] ||
    (AllEqual(segments[0].gap) && (segments[0].group != [] && Span(segments[0].group, side) == 0 ==> limit == 0) &&
     Guarded(segments[1..], side, limit))
  }

  lemma {:induction false} EachGuarded(segments: seq<Segment>, side: Side, limit: nat)
    requires forall k | 0 <= k < |segments| ::
               && AllEqual(segments[k].gap)
               && (segments[k].group != [] && Span(segments[k].group, side) == 0 ==> limit == 0)
    ensures Guarded(segments, side, limit)
  {
    if segments != [] {
      EachGuarded(segments[1..], side, limit);
    }
  }

  lemma FirstGates(script: Script, side: Side, oldCount: nat, newCount: nat, limit: nat, lines: seq<Line>, p: nat)
    requires script.segments != []
    requires Walks(Whole(script), side, lines, p)
    requires p + Span(Whole(script), side) <= limit
    requires Guarded(script.segments, side, limit)
    ensures Gates(HunksOf(Groups(script.segments), oldCount, newCount), side, limit) ==
            ScriptGates(script.segments[0].group, side, GroupStart(script, side, p)) +
            Gates(HunksOf(Groups(script.segments[1..]), oldCount, newCount), side, limit)
  {
    var groups := Groups(script.segments);
    assert groups[0] == script.segments[0].group && groups[1..] == Groups(script.segments[1..]);
    WalksStep(script, side, lines, p);
    HunksStep(groups, oldCount, newCount, side, limit);
    GroupGates(script.segments[0].group, oldCount, newCount, side, limit, lines, GroupStart(script, side, p));
  }

  lemma {:induction false} SegmentGates(script: Script, side: Side, oldCount: nat, newCount: nat, limit: nat,
                                        lines: seq<Line>, p: nat)
    requires Walks(Whole(script), side, lines, p)
    requires AllEqual(script.tail)
    requires p + Span(Whole(script), side) <= limit
    requires Guarded(script.segments, side, limit)
    ensures Gates(HunksOf(Groups(script.segments), oldCount, newCount), side, limit) ==
            ScriptGates(Whole(script), side, p)
    decreases |script.segments|
  {
    if script.segments == [] {
      assert Whole(script) == script.tail;
      EqualHasNoGates(script.tail, side, p);
    } else {
      WalksStep(script, side, lines, p);
      SegmentGates(Rest(script), side, oldCount, newCount, limit, lines, RestStart(script, side, p));
      FirstGates(script, side, oldCount, newCount, limit, lines, p);
      ScriptGatesStep(script, side, p);
    }
  }

  /* ---- Weaving the gates back rebuilds the script ---- */

  lemma {:induction false} LateGates(changes: seq<Change>, side: Side, p: nat, k: nat)
    requires k < p
    ensures Select(ScriptGates(changes, side, p), k) == []
  {
    if changes != [] {
      LateGates(changes[1..], side, if Has(changes[0].tag, side) then p + 1 else p, k);
    }
  }

  lemma {:induction false} PassedGate(gate: Gate, gates: seq<Gate>, rows: seq<FullFileRow>, k: nat)
    requires gate.anchor < k <= |rows|
    ensures Weave([gate] + gates, rows, k) == Weave(gates, rows, k)
    decreases |rows| - k
  {
    assert ([gate] + gates)[1..] == gates;
    if k < |rows| {
      PassedGate(gate, gates, rows, k + 1);
    }
  }

  lemma RenderStep(changes: seq<Change>, side: Side)
    requires changes != []
    ensures Render(changes, side) == [RenderChange(changes[0], side)] + Render(changes[1..], side)
  {
  }

  lemma SelectFirst(gate: Gate, gates: seq<Gate>)
    ensures Select([gate] + gates, gate.anchor) == [gate.row] + Select(gates, gate.anchor)
  {
    assert ([gate] + gates)[1..] == gates;
  }

  lemma PrependRow(row: FullFileRow, bucket: seq<FullFileRow>, longer: seq<FullFileRow>, rest: seq<FullFileRow>,
                   woven: seq<FullFileRow>, more: seq<FullFileRow>)
    requires longer == [row] + bucket && woven == bucket + rest && more == longer + rest
    ensures more == [row] + woven
  {
  }

  /** What follows the gates of a position. */
  function AfterGates(gates: seq<Gate>, rows: seq<FullFileRow>, k: nat): seq<FullFileRow>
    requires k <= |rows|
  {
    if k == |rows| then [] else [rows[k]] + Weave(gates, rows, k + 1)
  }

  /** A gate at the present position comes before everything else. */
  lemma WeaveGate(gate: Gate, gates: seq<Gate>, rows: seq<FullFileRow>)
    requires gate.anchor <= |rows|
    ensures Weave([gate] + gates, rows, gate.anchor) == [gate.row] + Weave(gates, rows, gate.anchor)
  {
    var k := gate.anchor;
    SelectFirst(gate, gates);
    WeaveIs([gate] + gates, rows, k);
    WeaveIs(gates, rows, k);
    SameAfterGates(gate, gates, rows);
    PrependRow(gate.row, Select(gates, k), Select([gate] + gates, k), AfterGates(gates, rows, k),
               Weave(gates, rows, k), Weave([gate] + gates, rows, k));
  }

  lemma SameAfterGates(gate: Gate, gates: seq<Gate>, rows: seq<FullFileRow>)
    requires gate.anchor <= |rows|
    ensures AfterGates([gate] + gates, rows, gate.anchor) == AfterGates(gates, rows, gate.anchor)
  {
    if gate.anchor < |rows| {
      PassedGate(gate, gates, rows, gate.anchor + 1);
    }
  }

  lemma WeaveIs(gates: seq<Gate>, rows: seq<FullFileRow>, k: nat)
    requires k <= |rows|
    ensures Weave(gates, rows, k) == Select(gates, k) + AfterGates(gates, rows, k)
  {
  }

  /** Without a gate at the present position the next row follows. */
  lemma WeaveRow(gates: seq<Gate>, rows: seq<FullFileRow>, p: nat)
    requires p < |rows| && Select(gates, p) == []
    ensures Weave(gates, rows, p) == [rows[p]] + Weave(gates, rows, p + 1)
  {
  }

  lemma {:induction false} WeaveScript(changes: seq<Change>, side: Side, rows: seq<FullFileRow>, p: nat)
    requires p <= |rows| && rows[p..] == Kept(changes, side)
    ensures Weave(ScriptGates(changes, side, p), rows, p) == Render(changes, side)
  {
    if changes != [] {
      var c, rest := changes[0], changes[1..];
      RenderStep(changes, side);
      if Has(c.tag, side) {
        assert rows[p..][1..] == rows[p + 1..];
        assert rows[p] == rows[p..][0] == RenderChange(c, side);
        WeaveScript(rest, side, rows, p + 1);
        LateGates(rest, side, p + 1, p);
        WeaveRow(ScriptGates(rest, side, p + 1), rows, p);
      } else {
        assert rows[p..] == Kept(rest, side);
        WeaveScript(rest, side, rows, p);
        WeaveGate(Gate(p, RenderChange(c, side)), ScriptGates(rest, side, p), rows);
      }
    }
  }

  /* ---- The complete side, read off the script ---- */

  lemma SpanStrict(changes: seq<Change>, side: Side, m: nat, k: nat)
    requires m < k <= |changes| && Has(changes[m].tag, side)
    ensures Span(changes[..m], side) < Span(changes[..k], side)
  {
    assert changes[..k] == changes[..m] + ([changes[m]] + changes[m + 1..k]);
    SpanOfConcat(changes[..m], [changes[m]] + changes[m + 1..k], side);
  }

  /** A line is marked changed exactly when its own change is one-sided. */
  lemma ChangedExactly(changes: seq<Change>, side: Side, lines: seq<Line>, k: nat)
    requires Walks(changes, side, lines, 0)
    requires k < |changes| && Has(changes[k].tag, side)
    ensures Span(changes[..k], side) + 1 in ChangedIn(changes, side) <==> changes[k].tag == ChangedTag(side)
  {
    WalksAround(changes, side, lines, 0, k);
    var n := Span(changes[..k], side) + 1;
    if n in ChangedIn(changes, side) {
      var c :| c in changes && c.tag == ChangedTag(side) && n == c.IndexOn(side).GetOr(0) + 1;
      var m :| 0 <= m < |changes| && changes[m] == c;
      WalksAround(changes, side, lines, 0, m);
      if m < k {
        SpanStrict(changes, side, m, k);
      } else if k < m {
        SpanStrict(changes, side, k, m);
      }
    }
  }

  lemma {:induction false} ChangedInConcat(a: seq<Change>, b: seq<Change>, side: Side)
    ensures ChangedIn(a + b, side) == ChangedIn(a, side) + ChangedIn(b, side)
    decreases |b|
  {
    if b == [] {
      assert a + b == a;
    } else {
      var init, last := b[..|b| - 1], b[|b| - 1];
      assert b == init + [last];
      assert a + b == (a + init) + [last];
      ChangedInConcat(a, init, side);
      ChangedInSnoc(a + init, last, side);
      ChangedInSnoc(init, last, side);
    }
  }

  lemma {:induction false} ChangedInScript(script: Script, side: Side)
    requires AllEqual(script.tail)
    requires forall k | 0 <= k < |script.segments| :: AllEqual(script.segments[k].gap)
    ensures ChangedInGroups(Groups(script.segments), side) == ChangedIn(Whole(script), side)
    decreases |script.segments|
  {
    if script.segments == [] {
      assert Whole(script) == script.tail;
    } else {
      var gap, group := script.segments[0].gap, script.segments[0].group;
      var rest := Rest(script);
      WholeStep(script);
      ChangedInConcat(gap, group + Whole(rest), side);
      ChangedInConcat(group, Whole(rest), side);
      ChangedInScript(rest, side);
      assert ChangedIn(gap, side) == {};
    }
  }

  lemma SourceRowIs(changes: seq<Change>, side: Side, document: DiffDocument, k: nat)
    requires Walks(changes, side, document.SourceOn(side).Lines(), 0)
    requires document.ChangedOn(side) == ChangedIn(changes, side)
    requires k < |changes| && Has(changes[k].tag, side)
    ensures Span(changes[..k], side) < document.SourceOn(side).LineCount()
    ensures SourceRow(document, side, Span(changes[..k], side)) == RenderChange(changes[k], side)
  {
    WalksAround(changes, side, document.SourceOn(side).Lines(), 0, k);
    ChangedExactly(changes, side, document.SourceOn(side).Lines(), k);
    NewlineFlags(document.SourceOn(side), Span(changes[..k], side));
  }

  /** One change further back, the complete side shows one line more or the same. */
  lemma KeptStep(changes: seq<Change>, side: Side, rows: seq<FullFileRow>, k: nat)
    requires k < |changes| && Span(changes[..k + 1], side) <= |rows|
    requires Kept(changes[k + 1..], side) == rows[Span(changes[..k + 1], side)..]
    requires Span(changes[..k + 1], side) == Span(changes[..k], side) + Step(changes[k], side)
    requires Has(changes[k].tag, side) ==> rows[Span(changes[..k], side)] == RenderChange(changes[k], side)
    ensures Kept(changes[k..], side) == rows[Span(changes[..k], side)..]
  {
    var p := Span(changes[..k], side);
    assert changes[k..][1..] == changes[k + 1..];
    if Has(changes[k].tag, side) {
      assert rows[p..] == [rows[p]] + rows[p + 1..];
    }
  }

  lemma {:induction false} KeptIsSource(changes: seq<Change>, side: Side, document: DiffDocument,
                                        rows: seq<FullFileRow>, k: nat)
    requires Walks(changes, side, document.SourceOn(side).Lines(), 0)
    requires Span(changes, side) == |rows|
    requires document.ChangedOn(side) == ChangedIn(changes, side)
    requires rows == FullFileRows(document, side)
    requires k <= |changes|
    ensures Span(changes[..k], side) <= |rows|
    ensures Kept(changes[k..], side) == rows[Span(changes[..k], side)..]
    decreases |changes| - k
  {
    if k == |changes| {
      assert changes[..k] == changes;
    } else {
      KeptIsSource(changes, side, document, rows, k + 1);
      SpanSnoc(changes, side, k);
      if Has(changes[k].tag, side) {
        SourceRowIs(changes, side, document, k);
      }
      KeptStep(changes, side, rows, k);
    }
  }

  lemma SpanSnoc(changes: seq<Change>, side: Side, k: nat)
    requires k < |changes|
    ensures Span(changes[..k + 1], side) == Span(changes[..k], side) + Step(changes[k], side)
  {
    assert changes[..k + 1] == changes[..k] + [changes[k]];
    SpanOfConcat(changes[..k], [changes[k]], side);
    assert [changes[k]][1..] == [];
  }

  /* ---- Main results ---- */

  /** A group without any line of one side is the whole script, so that side is empty. */
  lemma LonelyGroup(script: Script, base: SourceDocument, current: SourceDocument, k: nat, side: Side)
    requires Conforms(script, base, current)
    requires k < |script.segments| && script.segments[k].group != [] && Span(script.segments[k].group, side) == 0
    ensures script == Script([Segment([], script.segments[k].group)], []) && Whole(script) == script.segments[k].group
  {
    var group := script.segments[k].group;
    SpanCounts(group, side);
    GapsSeparate(script, base, current);
    forall n | 0 <= n < |script.segments| ensures script.segments[n].gap == [] {
      GapInWhole(script, n);
      EqualOrNot(script.segments[n].gap);
    }
    assert forall c | c in script.tail :: c in Whole(script);
    EqualOrNot(script.tail);
    assert Flatten(script.segments[1..]) == [];
    assert Flatten(script.segments) == [] + group + [];
  }

  lemma {:induction false} SpanCounts(changes: seq<Change>, side: Side)
    requires Span(changes, side) == 0
    ensures NoEqual(changes)
  {
    if changes != [] {
      SpanCounts(changes[1..], side);
      assert changes == [changes[0]] + changes[1..];
    }
  }

  lemma EqualOrNot(changes: seq<Change>)
    ensures AllEqual(changes) && NoEqual(changes) ==> changes == []
  {
    if changes != [] {
      assert changes[0] in changes;
    }
  }

  lemma GapsSeparate(script: Script, base: SourceDocument, current: SourceDocument)
    requires Conforms(script, base, current)
    ensures |script.segments| > 1 ==> script.segments[1].gap != []
  {
  }

  lemma GapInWhole(script: Script, n: nat)
    requires n < |script.segments|
    ensures forall c | c in script.segments[n].gap :: c in Whole(script)
  {
    FlattenHolds(script.segments, n);
  }

  lemma {:induction false} FlattenHolds(segments: seq<Segment>, n: nat)
    requires n < |segments|
    ensures forall c | c in segments[n].gap :: c in Flatten(segments)
  {
    if n > 0 {
      FlattenHolds(segments[1..], n - 1);
    }
  }

  /** Built from hunks alone, each full-file view equals the direct rendering of the whole script. */
  lemma ViewRendersScript(oldContent: string, newContent: string, script: Script, side: Side)
    requires Conforms(script, SourceDocument(oldContent), SourceDocument(newContent))
    ensures View(DocumentOf(oldContent, newContent, Groups(script.segments)), side) == Render(Whole(script), side)
  {
    var document := DocumentOf(oldContent, newContent, Groups(script.segments));
    var rows, lines := FullFileRows(document, side), document.SourceOn(side).Lines();
    forall k | 0 <= k < |script.segments| && script.segments[k].group != [] && Span(script.segments[k].group, side) == 0
      ensures |rows| == 0
    {
      LonelyGroup(script, document.base, document.current, k, side);
    }
    EachGuarded(script.segments, side, |rows|);
    SegmentGates(script, side, document.base.LineCount(), document.current.LineCount(), |rows|, lines, 0);
    ChangedInScript(script, side);
    KeptIsSource(Whole(script), side, document, rows, 0);
    assert Whole(script)[0..] == Whole(script) && Whole(script)[..0] == [];
    assert rows[0..] == rows;
    WeaveScript(Whole(script), side, rows, 0);
  }

  function OnSide(rows: seq<FullFileRow>, side: Side): seq<FullFileRow> {
    if rows == [] then [] else (if rows[0].side == side then [rows[0]] else []) + OnSide(rows[1..], side)
  }

  /** The view without the lines that only its own side has. */
  function WithoutOwnChanges(rows: seq<FullFileRow>, side: Side): seq<FullFileRow> {
    if rows == [] then []
    else (if rows[0].side == side && rows[0].changed then [] else [rows[0]]) + WithoutOwnChanges(rows[1..], side)
  }

  function RowLines(rows: seq<FullFileRow>): (lines: seq<Line>)
    ensures |lines| == |rows|
  {
    if rows == [] then [] else [Line(rows[0].text, rows[0].hasTrailingNewline)] + RowLines(rows[1..])
  }

  lemma {:induction false} OwnRowsAreKept(changes: seq<Change>, side: Side)
    ensures OnSide(Render(changes, side), side) == Kept(changes, side)
  {
    if changes != [] {
      assert Render(changes, side)[1..] == Render(changes[1..], side);
      OwnRowsAreKept(changes[1..], side);
    }
  }

  lemma KeptCons(changes: seq<Change>, side: Side)
    requires changes != []
    ensures Kept(changes, side) ==
            if Has(changes[0].tag, side) then [RenderChange(changes[0], side)] + Kept(changes[1..], side)
            else Kept(changes[1..], side)
  {
  }

  lemma OwnLine(c: Change, kept: seq<FullFileRow>, side: Side, lines: seq<Line>, p: nat, end: nat)
    requires Has(c.tag, side) && ChangeAt(c, side, lines, p) && p < end <= |lines| && RowLines(kept) == lines[p + 1..end]
    ensures RowLines([RenderChange(c, side)] + kept) == lines[p..end]
  {
    assert ([RenderChange(c, side)] + kept)[1..] == kept;
    assert lines[p..end] == [lines[p]] + lines[p + 1..end];
  }

  lemma {:induction false} OwnLines(changes: seq<Change>, side: Side, lines: seq<Line>, p: nat)
    requires p <= |lines| && Walks(changes, side, lines, p)
    ensures p + Span(changes, side) <= |lines|
    ensures RowLines(Kept(changes, side)) == lines[p..p + Span(changes, side)]
  {
    if changes != [] {
      OwnLines(changes[1..], side, lines, p + Step(changes[0], side));
      KeptCons(changes, side);
      if Has(changes[0].tag, side) {
        OwnLine(changes[0], Kept(changes[1..], side), side, lines, p, p + Span(changes, side));
      }
    }
  }

  lemma {:induction false} OtherLines(changes: seq<Change>, side: Side)
    ensures RowLines(WithoutOwnChanges(Render(changes, side), side)) == RowLines(Kept(changes, Other(side)))
  {
    if changes != [] {
      var c, rest := changes[0], changes[1..];
      var shown, shownRest := Render(changes, side), Render(rest, side);
      assert shown[0] == RenderChange(c, side) && shown[1..] == shownRest;
      OtherLines(rest, side);
      if Has(c.tag, Other(side)) {
        assert WithoutOwnChanges(shown, side)[1..] == WithoutOwnChanges(shownRest, side);
        assert Kept(changes, Other(side))[1..] == Kept(rest, Other(side));
      } else {
        assert WithoutOwnChanges(shown, side) == WithoutOwnChanges(shownRest, side);
        assert Kept(changes, Other(side)) == Kept(rest, Other(side));
      }
    }
  }

  /** Dropping the re-inserted rows leaves exactly the complete source; dropping instead the rows that
      only this side has leaves exactly the other source. Both in order, byte for byte. */
  lemma ViewRecoversBothSources(oldContent: string, newContent: string, script: Script, side: Side)
    requires Conforms(script, SourceDocument(oldContent), SourceDocument(newContent))
    ensures var document := DocumentOf(oldContent, newContent, Groups(script.segments));
            && OnSide(View(document, side), side) == FullFileRows(document, side)
            && JoinLines(RowLines(OnSide(View(document, side), side))) == document.SourceOn(side).content
            && JoinLines(RowLines(WithoutOwnChanges(View(document, side), side))) ==
               document.SourceOn(Other(side)).content
  {
    var document := DocumentOf(oldContent, newContent, Groups(script.segments));
    ViewRendersScript(oldContent, newContent, script, side);
    var whole := Whole(script);
    OwnRowsAreKept(whole, side);
    OtherLines(whole, side);
    KeptWhole(oldContent, newContent, script, side);
    WholeLines(whole, side, document.SourceOn(side));
    WholeLines(whole, Other(side), document.SourceOn(Other(side)));
  }

  lemma WholeLines(whole: seq<Change>, side: Side, source: SourceDocument)
    requires Walks(whole, side, source.Lines(), 0) && Span(whole, side) == source.LineCount()
    ensures JoinLines(RowLines(Kept(whole, side))) == source.content
  {
    OwnLines(whole, side, source.Lines(), 0);
    assert RowLines(Kept(whole, side)) == source.Lines();
    SplitThenJoin(source.content);
  }

  lemma KeptWhole(oldContent: string, newContent: string, script: Script, side: Side)
    requires Conforms(script, SourceDocument(oldContent), SourceDocument(newContent))
    ensures var document := DocumentOf(oldContent, newContent, Groups(script.segments));
            Kept(Whole(script), side) == FullFileRows(document, side)
  {
    var document := DocumentOf(oldContent, newContent, Groups(script.segments));
    ChangedInScript(script, side);
    KeptIsSource(Whole(script), side, document, FullFileRows(document, side), 0);
    assert Whole(script)[0..] == Whole(script) && Whole(script)[..0] == [];
  }

  /** A row of the Base view and the row beside it in the Current view: equal when changed, and otherwise naming the two
      line numbers of one equal pair. */
  predicate Beside(base: FullFileRow, current: FullFileRow, whole: seq<Change>, oldLines: seq<Line>, newLines: seq<Line>) {
    && base.changed == current.changed && base.text == current.text && base.hasTrailingNewline == current.hasTrailingNewline
    && (base.changed ==> base == current)
    && (!base.changed ==>
          && base.side == Old && current.side == New
          && 0 < base.lineNumber <= |oldLines| && 0 < current.lineNumber <= |newLines|
          && oldLines[base.lineNumber - 1] == newLines[current.lineNumber - 1]
          && exists c :: c in whole && c.tag.Equal? &&
                         c.oldIndex == Some(base.lineNumber - 1) && c.newIndex == Some(current.lineNumber - 1))
  }

  lemma RowsBeside(whole: seq<Change>, k: nat, oldLines: seq<Line>, newLines: seq<Line>)
    requires Walks(whole, Old, oldLines, 0) && Walks(whole, New, newLines, 0) && k < |whole|
    ensures Beside(RenderChange(whole[k], Old), RenderChange(whole[k], New), whole, oldLines, newLines)
  {
    WalksAround(whole, Old, oldLines, 0, k);
    WalksAround(whole, New, newLines, 0, k);
    assert whole[k] in whole;
  }

  lemma BothRendered(oldContent: string, newContent: string, script: Script)
    requires Conforms(script, SourceDocument(oldContent), SourceDocument(newContent))
    ensures var document := DocumentOf(oldContent, newContent, Groups(script.segments));
            View(document, Old) == Render(Whole(script), Old) && View(document, New) == Render(Whole(script), New)
  {
    ViewRendersScript(oldContent, newContent, script, Old);
    ViewRendersScript(oldContent, newContent, script, New);
  }

  /** The Base and Current views line up row by row: equal on changed lines, and on the others naming
      the two line numbers of one equal pair. */
  lemma BaseAndCurrentAgree(oldContent: string, newContent: string, script: Script, k: nat)
    requires Conforms(script, SourceDocument(oldContent), SourceDocument(newContent))
    ensures var document := DocumentOf(oldContent, newContent, Groups(script.segments));
            && |View(document, Old)| == |View(document, New)|
            && (k < |View(document, Old)| ==>
                  Beside(View(document, Old)[k], View(document, New)[k], Whole(script), document.base.Lines(),
                      document.current.Lines()))
  {
    BothRendered(oldContent, newContent, script);
    if k < |Whole(script)| {
      RowsBeside(Whole(script), k, SourceDocument(oldContent).Lines(), SourceDocument(newContent).Lines());
    }
  }

  /* ---- Headers ---- */

  function Before(script: Script, k: nat): seq<Change>
    requires k < |script.segments|
  {
    Flatten(script.segments[..k]) + script.segments[k].gap
  }

  lemma {:induction false} WholeAt(script: Script, k: nat)
    requires k < |script.segments|
    ensures Before(script, k) + script.segments[k].group <= Whole(script)
    decreases k
  {
    if k == 0 {
      assert script.segments[..0] == [];
      WholeStep(script);
    } else {
      WholeAt(Rest(script), k - 1);
      WholeStep(script);
      assert script.segments[..k][1..] == Rest(script).segments[..k - 1];
      var first := script.segments[0];
      assert Before(script, k) == first.gap + first.group + Before(Rest(script), k - 1);
    }
  }

  lemma {:induction false} FirstLineIs(changes: seq<Change>, side: Side, lines: seq<Line>, p: nat)
    requires Walks(changes, side, lines, p) && Span(changes, side) > 0
    ensures FirstLine(changes, side) == Some(p + 1)
  {
    if !Has(changes[0].tag, side) {
      FirstLineIs(changes[1..], side, lines, p);
    }
  }

  /** Each header names exactly the lines its hunk covers, and for an empty range the line it follows. */
  lemma HeaderNamesItsLines(oldContent: string, newContent: string, script: Script, k: nat, side: Side)
    requires Conforms(script, SourceDocument(oldContent), SourceDocument(newContent))
    requires k < |script.segments| && script.segments[k].group != []
    ensures var header := HeaderOf(script.segments[k].group, SourceDocument(oldContent).LineCount(),
                                   SourceDocument(newContent).LineCount());
            var before := Span(Before(script, k), side);
            && header.CountOn(side) == Span(script.segments[k].group, side)
            && header.StartOn(side) == if header.CountOn(side) > 0 then before + 1 else before
  {
    var base, current := SourceDocument(oldContent), SourceDocument(newContent);
    var lines := if side.Old? then base.Lines() else current.Lines();
    if Span(script.segments[k].group, side) > 0 {
      GroupWalks(script, side, lines, k);
      FirstLineIs(script.segments[k].group, side, lines, Span(Before(script, k), side));
    } else {
      LonelyGroup(script, base, current, k, side);
      LonelyHeader(script, side, lines, k);
    }
  }

  lemma GroupWalks(script: Script, side: Side, lines: seq<Line>, k: nat)
    requires k < |script.segments| && Walks(Whole(script), side, lines, 0)
    ensures Walks(script.segments[k].group, side, lines, Span(Before(script, k), side))
  {
    var group, before := script.segments[k].group, Before(script, k);
    WholeAt(script, k);
    var after := Whole(script)[|before + group|..];
    assert Whole(script) == before + (group + after);
    WalksConcat(before, group + after, side, lines, 0);
    WalksConcat(group, after, side, lines, Span(before, side));
  }

  /** A hunk that is the whole script and has no line on one side starts that side's range at zero. */
  lemma LonelyHeader(script: Script, side: Side, lines: seq<Line>, k: nat)
    requires k < |script.segments| && script.segments[k].group != [] && Span(script.segments[k].group, side) == 0
    requires script == Script([Segment([], script.segments[k].group)], []) && Whole(script) == script.segments[k].group
    requires Walks(Whole(script), side, lines, 0)
    ensures Before(script, k) == [] && FirstLine(script.segments[k].group, side).None?
    ensures EmptyStart(script.segments[k].group, side, 0) == Some(0)
  {
    assert k == 0;
    NoFirstLine(script.segments[k].group, side);
    SpanAround(script.segments[k].group, side, 0);
  }

  lemma {:induction false} NoFirstLine(changes: seq<Change>, side: Side)
    requires Span(changes, side) == 0
    ensures FirstLine(changes, side).None?
  {
    if changes != [] {
      NoFirstLine(changes[1..], side);
    }
  }
}
