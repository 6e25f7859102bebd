/** Side-by-side rows of a hunk (`build_split_rows` in crates/diff/src/lib.rs). */
module SplitRows {
  import opened Wrappers
  import opened Document

  datatype SplitRow = SplitRow(base: Option<Cell>, current: Option<Cell>) {
    function CellOn(side: Side): Option<Cell> {
      if side.Old? then base else current
    }
  }

  function Listed(cell: Option<Cell>): seq<Cell> {
    if cell.Some? then [cell.value] else []
  }

  function Get(cells: seq<Cell>, k: nat): Option<Cell> {
    if k < |cells| then Some(cells[k]) else None
  }

  function Max(a: nat, b: nat): nat {
    if a > b then a else b
  }

  /** The k-th removal beside the k-th addition, until both run out. */
  function Paired(removals: seq<Cell>, additions: seq<Cell>): (rows: seq<SplitRow>)
    ensures |rows| == Max(|removals|, |additions|)
    ensures forall k | 0 <= k < |rows| :: rows[k] == SplitRow(Get(removals, k), Get(additions, k))
  {
    seq(Max(|removals|, |additions|), k requires 0 <= k => SplitRow(Get(removals, k), Get(additions, k)))
  }

  function SplitFrom(rows: seq<UnifiedRow>, removals: seq<Cell>, additions: seq<Cell>): seq<SplitRow>
    decreases |rows|
  {
    if rows == [] then Paired(removals, additions)
    else
      match rows[0].kind
      case Removal => SplitFrom(rows[1..], removals + Listed(rows[0].CellOn(Old)), additions)
      case Addition => SplitFrom(rows[1..], removals, additions + Listed(rows[0].CellOn(New)))
      case Context =>
        Paired(removals, additions) + [SplitRow(rows[0].CellOn(Old), rows[0].CellOn(New))] + SplitFrom(rows[1..], [], [])
  }

  function Split(rows: seq<UnifiedRow>): seq<SplitRow> {
    SplitFrom(rows, [], [])
  }

  method Flush(result: seq<SplitRow>, removals: seq<Cell>, additions: seq<Cell>) returns (flushed: seq<SplitRow>)
    ensures flushed == result + Paired(removals, additions)
  {
    flushed := result;
    for k := 0 to Max(|removals|, |additions|)
      invariant flushed == result + Paired(removals, additions)[..k]
    {
      flushed := flushed + [SplitRow(Get(removals, k), Get(additions, k))];
    }
  }

  lemma AppendRest(a: seq<SplitRow>, b: seq<SplitRow>, c: seq<SplitRow>, d: seq<SplitRow>)
    ensures a + (b + c + d) == (a + b + c) + d
  {
  }

  method BuildSplitRows(rows: seq<UnifiedRow>) returns (result: seq<SplitRow>)
    ensures result == Split(rows)
  {
    result := [];
    var removals: seq<Cell>, additions: seq<Cell> := [], [];
    assert rows[0..] == rows;
    for k := 0 to |rows|
      invariant result + SplitFrom(rows[k..], removals, additions) == Split(rows)
    {
      var row := rows[k];
      ghost var rest := rows[k + 1..];
      assert rows[k..][0] == row && rows[k..][1..] == rest;
      match row.kind {
        case Removal => removals := removals + Listed(row.CellOn(Old));
        case Addition => additions := additions + Listed(row.CellOn(New));
        case Context =>
          var shown := [SplitRow(row.CellOn(Old), row.CellOn(New))];
          AppendRest(result, Paired(removals, additions), shown, SplitFrom(rest, [], []));
          result := Flush(result, removals, additions);
          result := result + shown;
          removals, additions := [], [];
      }
    }
    result := Flush(result, removals, additions);
  }

  /* ---- What the rows mean ---- */

  predicate WellShaped(row: UnifiedRow) {
    && (row.CellOn(Old).Some? <==> !row.kind.Addition?)
    && (row.CellOn(New).Some? <==> !row.kind.Removal?)
    && (row.CellOn(Old).Some? ==> row.CellOn(Old).value.kind == row.kind)
    && (row.CellOn(New).Some? ==> row.CellOn(New).value.kind == row.kind)
  }

  predicate AllShaped(rows: seq<UnifiedRow>) {
    forall row | row in rows :: WellShaped(row)
  }

  function UnifiedCells(rows: seq<UnifiedRow>, side: Side): seq<Cell> {
    if rows == [] then [] else Listed(rows[0].CellOn(side)) + UnifiedCells(rows[1..], side)
  }

  function SplitCells(rows: seq<SplitRow>, side: Side): seq<Cell> {
    if rows == [] then [] else Listed(rows[0].CellOn(side)) + SplitCells(rows[1..], side)
  }

  lemma {:induction false} SplitCellsConcat(a: seq<SplitRow>, b: seq<SplitRow>, side: Side)
    ensures SplitCells(a + b, side) == SplitCells(a, side) + SplitCells(b, side)
  {
    if a == [] {
      assert a + b == b;
    } else {
      assert (a + b)[1..] == a[1..] + b;
      SplitCellsConcat(a[1..], b, side);
    }
  }

  function Tail(cells: seq<Cell>): seq<Cell> {
    if cells == [] then [] else cells[1..]
  }

  lemma PairedStep(removals: seq<Cell>, additions: seq<Cell>)
    requires removals != [] || additions != []
    ensures Paired(removals, additions) ==
            [SplitRow(Get(removals, 0), Get(additions, 0))] + Paired(Tail(removals), Tail(additions))
  {
  }

  lemma {:induction false} PairedCells(removals: seq<Cell>, additions: seq<Cell>)
    ensures SplitCells(Paired(removals, additions), Old) == removals
    ensures SplitCells(Paired(removals, additions), New) == additions
    decreases |removals| + |additions|
  {
    if removals != [] || additions != [] {
      PairedStep(removals, additions);
      PairedCells(Tail(removals), Tail(additions));
      assert Paired(removals, additions)[1..] == Paired(Tail(removals), Tail(additions));
    }
  }

  lemma ShownCells(shown: SplitRow, rest: seq<SplitRow>, side: Side)
    ensures SplitCells([shown] + rest, side) == Listed(shown.CellOn(side)) + SplitCells(rest, side)
  {
    assert ([shown] + rest)[1..] == rest;
  }

  lemma FlushedCells(removals: seq<Cell>, additions: seq<Cell>, shown: SplitRow, rest: seq<SplitRow>, side: Side)
    ensures SplitCells(Paired(removals, additions) + [shown] + rest, side) ==
            (if side.Old? then removals else additions) + (Listed(shown.CellOn(side)) + SplitCells(rest, side))
  {
    var paired := Paired(removals, additions);
    PairedCells(removals, additions);
    assert paired + [shown] + rest == paired + ([shown] + rest);
    SplitCellsConcat(paired, [shown] + rest, side);
    ShownCells(shown, rest, side);
  }

  lemma CellsStep(row: UnifiedRow, rest: seq<UnifiedRow>, removals: seq<Cell>, additions: seq<Cell>, side: Side)
    requires WellShaped(row)
    ensures var cells := Listed(row.CellOn(side)) + UnifiedCells(rest, side);
            && (row.kind.Removal? ==>
                  (if side.Old? then removals + Listed(row.CellOn(Old)) else additions) + UnifiedCells(rest, side) ==
                  (if side.Old? then removals else additions) + cells)
            && (row.kind.Addition? ==>
                  (if side.Old? then removals else additions + Listed(row.CellOn(New))) + UnifiedCells(rest, side) ==
                  (if side.Old? then removals else additions) + cells)
  {
  }

  lemma {:induction false} PendingCells(rows: seq<UnifiedRow>, removals: seq<Cell>, additions: seq<Cell>, side: Side)
    requires AllShaped(rows)
    ensures SplitCells(SplitFrom(rows, removals, additions), side) ==
            (if side.Old? then removals else additions) + UnifiedCells(rows, side)
    decreases |rows|
  {
    if rows == [] {
      PairedCells(removals, additions);
    } else {
      var row, rest := rows[0], rows[1..];
      assert row in rows && AllShaped(rest);
      CellsStep(row, rest, removals, additions, side);
      match row.kind {
        case Removal => PendingCells(rest, removals + Listed(row.CellOn(Old)), additions, side);
        case Addition => PendingCells(rest, removals, additions + Listed(row.CellOn(New)), side);
        case Context =>
          PendingCells(rest, [], [], side);
          FlushedCells(removals, additions, SplitRow(row.CellOn(Old), row.CellOn(New)), SplitFrom(rest, [], []), side);
          assert [] + UnifiedCells(rest, side) == UnifiedCells(rest, side);
      }
    }
  }

  /** Each side keeps all of its cells, in order. */
  lemma ProjectionsPreserved(rows: seq<UnifiedRow>, side: Side)
    requires AllShaped(rows)
    ensures SplitCells(Split(rows), side) == UnifiedCells(rows, side)
  {
    PendingCells(rows, [], [], side);
  }

  lemma {:induction false} PendingContext(a: seq<UnifiedRow>, context: UnifiedRow, b: seq<UnifiedRow>,
                                          removals: seq<Cell>, additions: seq<Cell>)
    requires context.kind.Context?
    ensures SplitFrom(a + [context] + b, removals, additions) ==
            SplitFrom(a, removals, additions) + [SplitRow(context.CellOn(Old), context.CellOn(New))] + Split(b)
    decreases |a|
  {
    if a == [] {
      assert (a + [context] + b)[1..] == b;
    } else {
      assert (a + [context] + b)[1..] == a[1..] + [context] + b;
      match a[0].kind {
        case Removal => PendingContext(a[1..], context, b, removals + Listed(a[0].CellOn(Old)), additions);
        case Addition => PendingContext(a[1..], context, b, removals, additions + Listed(a[0].CellOn(New)));
        case Context => PendingContext(a[1..], context, b, [], []);
      }
    }
  }

  /** No row pairs lines across an aligned pair: a context row splits the hunk into two independent parts. */
  lemma ContextSeparates(a: seq<UnifiedRow>, context: UnifiedRow, b: seq<UnifiedRow>)
    requires context.kind.Context?
    ensures Split(a + [context] + b) == Split(a) + [SplitRow(context.CellOn(Old), context.CellOn(New))] + Split(b)
  {
    PendingContext(a, context, b, [], []);
  }

  lemma {:induction false} PendingBlock(block: seq<UnifiedRow>, removals: seq<Cell>, additions: seq<Cell>)
    requires forall row | row in block :: WellShaped(row) && !row.kind.Context?
    ensures SplitFrom(block, removals, additions) ==
            Paired(removals + UnifiedCells(block, Old), additions + UnifiedCells(block, New))
    decreases |block|
  {
    if block == [] {
      assert removals + [] == removals && additions + [] == additions;
    } else {
      var row := block[0];
      assert WellShaped(row);
      PendingBlock(block[1..], removals + Listed(row.CellOn(Old)), additions + Listed(row.CellOn(New)));
      assert removals + UnifiedCells(block, Old) == removals + Listed(row.CellOn(Old)) + UnifiedCells(block[1..], Old);
      assert additions + UnifiedCells(block, New) == additions + Listed(row.CellOn(New)) + UnifiedCells(block[1..], New);
      assert removals + [] == removals && additions + [] == additions;
    }
  }

  /** A block of changes shows its k-th removal beside its k-th addition, in max(removals, additions) rows. */
  lemma BlockPairsInOrder(block: seq<UnifiedRow>, k: nat)
    requires forall row | row in block :: WellShaped(row) && !row.kind.Context?
    ensures |Split(block)| == Max(|UnifiedCells(block, Old)|, |UnifiedCells(block, New)|)
    ensures k < |Split(block)| ==>
              Split(block)[k] == SplitRow(Get(UnifiedCells(block, Old), k), Get(UnifiedCells(block, New), k))
  {
    PendingBlock(block, [], []);
    assert [] + UnifiedCells(block, Old) == UnifiedCells(block, Old);
    assert [] + UnifiedCells(block, New) == UnifiedCells(block, New);
  }

  /* ---- The inverse ---- */

  function ChangeRows(removals: seq<Cell>, additions: seq<Cell>): seq<UnifiedRow> {
    if removals != [] then [UnifiedRow(Removal, Some(removals[0]), None)] + ChangeRows(removals[1..], additions)
    else if additions != [] then [UnifiedRow(Addition, None, Some(additions[0]))] + ChangeRows(removals, additions[1..])
    else []
  }

  function UnsplitFrom(rows: seq<SplitRow>, removals: seq<Cell>, additions: seq<Cell>): seq<UnifiedRow>
    decreases |rows|
  {
    if rows == [] then ChangeRows(removals, additions)
    else
      var row := rows[0];
      if row.base.Some? && row.base.value.kind.Context?
      then ChangeRows(removals, additions) + [UnifiedRow(Context, row.base, row.current)] + UnsplitFrom(rows[1..], [], [])
      else UnsplitFrom(rows[1..], removals + Listed(row.base), additions + Listed(row.current))
  }

  function Unsplit(rows: seq<SplitRow>): seq<UnifiedRow> {
    UnsplitFrom(rows, [], [])
  }

  /** Within every block, removals come before additions. */
  predicate Ordered(rows: seq<UnifiedRow>) {
    |rows| < 2 || (!(rows[0].kind.Addition? && rows[1].kind.Removal?) && Ordered(rows[1..]))
  }

  lemma {:induction false} OrderedAround(a: seq<UnifiedRow>, context: UnifiedRow, b: seq<UnifiedRow>)
    requires Ordered(a) && context.kind.Context? && Ordered(b)
    ensures Ordered(a + [context] + b)
  {
    if a == [] {
      assert (a + [context] + b)[1..] == b;
    } else {
      OrderedAround(a[1..], context, b);
      assert (a + [context] + b)[1..] == a[1..] + [context] + b;
      assert |a| > 1 ==> a[1..][0] == a[1];
    }
  }

  predicate Changes(removals: seq<Cell>, additions: seq<Cell>) {
    (forall c | c in removals :: c.kind.Removal?) && (forall c | c in additions :: c.kind.Addition?)
  }

  lemma {:induction false} UnsplitPaired(r: seq<Cell>, a: seq<Cell>, tail: seq<SplitRow>,
                                         removals: seq<Cell>, additions: seq<Cell>)
    requires Changes(r, a)
    ensures UnsplitFrom(Paired(r, a) + tail, removals, additions) == UnsplitFrom(tail, removals + r, additions + a)
    decreases |r| + |a|
  {
    if r == [] && a == [] {
      assert Paired(r, a) + tail == tail;
      assert removals + r == removals && additions + a == additions;
    } else {
      PairedStep(r, a);
      var all := Paired(r, a) + tail;
      assert all[1..] == Paired(Tail(r), Tail(a)) + tail;
      assert all[0] == SplitRow(Get(r, 0), Get(a, 0));
      assert r == [] || r[0] in r;
      UnsplitPaired(Tail(r), Tail(a), tail, removals + Listed(Get(r, 0)), additions + Listed(Get(a, 0)));
      assert removals + Listed(Get(r, 0)) + Tail(r) == removals + r;
      assert additions + Listed(Get(a, 0)) + Tail(a) == additions + a;
    }
  }

  lemma {:induction false} ChangeRowsAdd(removals: seq<Cell>, additions: seq<Cell>, c: Cell)
    ensures ChangeRows(removals, additions + [c]) == ChangeRows(removals, additions) + [UnifiedRow(Addition, None, Some(c))]
    ensures additions == [] ==> ChangeRows(removals + [c], []) == ChangeRows(removals, []) + [UnifiedRow(Removal,
            Some(c), None)]
    decreases |removals| + |additions|
  {
    if removals != [] {
      ChangeRowsAdd(removals[1..], additions, c);
      assert (removals + [c])[1..] == removals[1..] + [c];
    } else if additions != [] {
      ChangeRowsAdd(removals, additions[1..], c);
      assert (additions + [c])[1..] == additions[1..] + [c];
    } else {
      assert [c][1..] == [];
    }
  }

  lemma UnsplitContext(removals: seq<Cell>, additions: seq<Cell>, context: UnifiedRow, rest: seq<SplitRow>)
    requires Changes(removals, additions) && WellShaped(context) && context.kind.Context?
    ensures UnsplitFrom(Paired(removals, additions) + [SplitRow(context.CellOn(Old), context.CellOn(New))] + rest, [], []) ==
            ChangeRows(removals, additions) + [context] + Unsplit(rest)
  {
    var shown := SplitRow(context.CellOn(Old), context.CellOn(New));
    var tail := [shown] + rest;
    assert Paired(removals, additions) + [shown] + rest == Paired(removals, additions) + tail;
    UnsplitPaired(removals, additions, tail, [], []);
    assert [] + removals == removals && [] + additions == additions;
    assert tail[1..] == rest;
  }

  lemma ChangesPlus(removals: seq<Cell>, additions: seq<Cell>, row: UnifiedRow)
    requires Changes(removals, additions) && WellShaped(row)
    ensures row.kind.Removal? ==> Changes(removals + [row.CellOn(Old).value], additions)
    ensures row.kind.Addition? ==> Changes(removals, additions + [row.CellOn(New).value])
  {
  }

  /** Putting a row's cell among the pending ones, or the row before the rest, is the same when nothing is out of order. */
  lemma ChangeRowsShift(removals: seq<Cell>, additions: seq<Cell>, row: UnifiedRow, rest: seq<UnifiedRow>)
    requires WellShaped(row)
    ensures row.kind.Removal? && additions == [] ==>
              ChangeRows(removals + [row.CellOn(Old).value], additions) + rest == ChangeRows(removals,
                  additions) + ([row] + rest)
    ensures row.kind.Addition? ==>
              ChangeRows(removals, additions + [row.CellOn(New).value]) + rest == ChangeRows(removals,
                  additions) + ([row] + rest)
  {
    if row.kind.Removal? {
      ChangeRowsAdd(removals, additions, row.CellOn(Old).value);
    } else if row.kind.Addition? {
      ChangeRowsAdd(removals, additions, row.CellOn(New).value);
    }
  }

  /** Nothing a pending addition would be overtaken by. */
  predicate InOrder(rows: seq<UnifiedRow>, additions: seq<Cell>) {
    Ordered(rows) && (additions != [] && rows != [] ==> !rows[0].kind.Removal?)
  }

  lemma ShapedTail(rows: seq<UnifiedRow>, additions: seq<Cell>)
    requires rows != [] && AllShaped(rows) && InOrder(rows, additions)
    ensures WellShaped(rows[0]) && AllShaped(rows[1..])
    ensures InOrder(rows[1..], []) && (rows[0].kind.Removal? ==> additions == [])
    ensures rows[0].kind.Addition? ==> forall c: Cell :: InOrder(rows[1..], additions + [c])
  {
    assert rows[0] in rows;
    assert |rows| > 1 ==> rows[1..][0] == rows[1];
  }

  lemma UnsplitEnd(removals: seq<Cell>, additions: seq<Cell>)
    requires Changes(removals, additions)
    ensures UnsplitFrom(Paired(removals, additions), [], []) == ChangeRows(removals, additions)
  {
    UnsplitPaired(removals, additions, [], [], []);
    assert Paired(removals, additions) + [] == Paired(removals, additions);
    assert [] + removals == removals && [] + additions == additions;
  }

  lemma {:induction false} UnsplitPending(rows: seq<UnifiedRow>, removals: seq<Cell>, additions: seq<Cell>)
    requires AllShaped(rows) && InOrder(rows, additions) && Changes(removals, additions)
    ensures UnsplitFrom(SplitFrom(rows, removals, additions), [], []) == ChangeRows(removals, additions) + rows
    decreases |rows|
  {
    if rows == [] {
      UnsplitEnd(removals, additions);
    } else {
      var row, rest := rows[0], rows[1..];
      ShapedTail(rows, additions);
      assert rows == [row] + rest;
      if row.kind.Context? {
        UnsplitPending(rest, [], []);
        UnsplitContext(removals, additions, row, SplitFrom(rest, [], []));
        UnsplitAround(removals, additions, row, rest);
      } else {
        ChangesPlus(removals, additions, row);
        ChangeRowsShift(removals, additions, row, rest);
        if row.kind.Removal? {
          UnsplitPending(rest, removals + [row.CellOn(Old).value], additions);
        } else {
          UnsplitPending(rest, removals, additions + [row.CellOn(New).value]);
        }
      }
    }
  }

  lemma UnsplitAround(removals: seq<Cell>, additions: seq<Cell>, row: UnifiedRow, rest: seq<UnifiedRow>)
    requires Unsplit(SplitFrom(rest, [], [])) == ChangeRows([], []) + rest
    ensures ChangeRows(removals, additions) + [row] + Unsplit(SplitFrom(rest, [], [])) == ChangeRows(removals,
            additions) + ([row] + rest)
  {
    assert ChangeRows([], []) + rest == rest;
  }

  lemma {:induction false} ChangeRowsOrdered(removals: seq<Cell>, additions: seq<Cell>)
    ensures Ordered(ChangeRows(removals, additions))
    decreases |removals| + |additions|
  {
    if removals != [] {
      ChangeRowsOrdered(removals[1..], additions);
    } else if additions != [] {
      ChangeRowsOrdered(removals, additions[1..]);
    }
  }

  lemma {:induction false} UnsplitOrdered(rows: seq<SplitRow>, removals: seq<Cell>, additions: seq<Cell>)
    ensures Ordered(UnsplitFrom(rows, removals, additions))
    decreases |rows|
  {
    ChangeRowsOrdered(removals, additions);
    if rows != [] {
      var row := rows[0];
      if row.base.Some? && row.base.value.kind.Context? {
        UnsplitOrdered(rows[1..], [], []);
        OrderedAround(ChangeRows(removals, additions), UnifiedRow(Context, row.base, row.current), Unsplit(rows[1..]));
      } else {
        UnsplitOrdered(rows[1..], removals + Listed(row.base), additions + Listed(row.current));
      }
    }
  }

  /** Splitting loses exactly the order of removals and additions inside a block. */
  lemma SplitInvertible(rows: seq<UnifiedRow>)
    requires AllShaped(rows)
    ensures Unsplit(Split(rows)) == rows <==> Ordered(rows)
  {
    UnsplitOrdered(Split(rows), [], []);
    if Ordered(rows) {
      UnsplitPending(rows, [], []);
      assert ChangeRows([], []) + rows == rows;
    }
  }

  /** The rows a document is built from are always well shaped. */
  lemma RowsAreWellShaped(group: seq<Change>)
    ensures AllShaped(RowsOf(group))
  {
    forall row | row in RowsOf(group) ensures WellShaped(row) {
      var k :| 0 <= k < |group| && row == RowsOf(group)[k];
      assert row == RowOf(group[k]);
    }
  }

  lemma {:induction false} HunksAreWellShaped(groups: seq<seq<Change>>, oldCount: nat, newCount: nat, hunk: Hunk)
    requires hunk in HunksOf(groups, oldCount, newCount)
    ensures AllShaped(hunk.unifiedRows)
  {
    if hunk in GroupHunks(groups[0], oldCount, newCount) {
      RowsAreWellShaped(groups[0]);
    } else {
      HunksAreWellShaped(groups[1..], oldCount, newCount, hunk);
    }
  }

  /** The side-by-side rows of every hunk of a document show each side's cells in order, and the hunk can be rebuilt from
      them exactly when its blocks list removals before additions. */
  lemma DocumentSplits(oldContent: string, newContent: string, groups: seq<seq<Change>>, hunk: Hunk)
    requires hunk in DocumentOf(oldContent, newContent, groups).hunks
    ensures forall side: Side :: SplitCells(Split(hunk.unifiedRows), side) == UnifiedCells(hunk.unifiedRows, side)
    ensures Unsplit(Split(hunk.unifiedRows)) == hunk.unifiedRows <==> Ordered(hunk.unifiedRows)
  {
    var document := DocumentOf(oldContent, newContent, groups);
    HunksAreWellShaped(groups, document.base.LineCount(), document.current.LineCount(), hunk);
    forall side: Side ensures SplitCells(Split(hunk.unifiedRows), side) == UnifiedCells(hunk.unifiedRows, side) {
      ProjectionsPreserved(hunk.unifiedRows, side);
    }
    SplitInvertible(hunk.unifiedRows);
  }
}
