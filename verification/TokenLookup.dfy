/** Looking spans up by viewport ranges (`tokens_in_byte_ranges` in crates/highlight/src/lib.rs). */
module TokenLookup {
  import opened Wrappers
  import opened Ordering
  import opened HighlightSpans
  import Document

  type Range = (nat, nat)

  /** A span shares a byte with a non-empty range. */
  predicate Overlaps(t: Token, r: Range) {
    r.0 < r.1 && t.start < r.1 && r.0 < t.end
  }

  predicate Wanted(t: Token, ranges: seq<Range>) {
    exists r :: r in ranges && Overlaps(t, r)
  }

  /** The spans that overlap some requested range, in order. */
  function Filter(tokens: seq<Token>, ranges: seq<Range>): seq<Token> {
    if tokens == [] then []
    else
      var last := tokens[|tokens| - 1];
      Filter(tokens[..|tokens| - 1], ranges) + if Wanted(last, ranges) then [last] else []
  }

  function Visible(tokens: seq<Token>, ranges: Option<seq<Range>>): seq<Token> {
    match ranges
    case None => tokens
    case Some(wanted) => Filter(tokens, wanted)
  }

  lemma {:induction false} FilterHolds(tokens: seq<Token>, ranges: seq<Range>, t: Token)
    ensures t in Filter(tokens, ranges) <==>
            t in tokens && exists r :: r in ranges && r.0 < r.1 && t.start < r.1 && r.0 < t.end
  {
    if tokens != [] {
      var init, last := tokens[..|tokens| - 1], tokens[|tokens| - 1];
      assert tokens == init + [last];
      FilterHolds(init, ranges, t);
      assert Wanted(t, ranges) <==> exists r :: r in ranges && r.0 < r.1 && t.start < r.1 && r.0 < t.end;
    }
  }

  lemma WantedSnoc(t: Token, ranges: seq<Range>, r: Range)
    ensures Wanted(t, ranges + [r]) <==> Wanted(t, ranges) || Overlaps(t, r)
  {
    if Overlaps(t, r) {
      assert r in ranges + [r];
    }
    if Wanted(t, ranges) {
      var q :| q in ranges && Overlaps(t, q);
      assert q in ranges + [r];
    }
  }

  lemma WantedStep(t: Token, ranges: seq<Range>, i: nat)
    requires i < |ranges|
    ensures Wanted(t, ranges[..i + 1]) <==> Wanted(t, ranges[..i]) || Overlaps(t, ranges[i])
  {
    assert ranges[..i + 1] == ranges[..i] + [ranges[i]];
    WantedSnoc(t, ranges[..i], ranges[i]);
  }

  lemma {:induction false} FilterAgrees(tokens: seq<Token>, a: seq<Range>, b: seq<Range>)
    requires forall t | t in tokens :: Wanted(t, a) == Wanted(t, b)
    ensures Filter(tokens, a) == Filter(tokens, b)
  {
    if tokens != [] {
      FilterAgrees(tokens[..|tokens| - 1], a, b);
    }
  }

  /** Spans nobody wants change nothing. */
  lemma {:induction false} FilterSkip(tokens: seq<Token>, n: nat, m: nat, ranges: seq<Range>)
    requires n <= m <= |tokens| && forall j | n <= j < m :: !Wanted(tokens[j], ranges)
    ensures Filter(tokens[..m], ranges) == Filter(tokens[..n], ranges)
  {
    if n < m {
      FilterSkip(tokens, n, m - 1, ranges);
      assert tokens[..m][..m - 1] == tokens[..m - 1];
    }
  }

  lemma {:induction false} CanonicalAt(tokens: seq<Token>, side: Document.Side, i: nat, j: nat)
    requires Canonical(tokens, side) && i <= j < |tokens|
    ensures tokens[j].start < tokens[j].end && (i < j ==> tokens[i].end <= tokens[j].start)
  {
    var init := tokens[..|tokens| - 1];
    if j < |tokens| - 1 {
      CanonicalAt(init, side, i, j);
    } else if i < j {
      CanonicalAt(init, side, i, j - 1);
      assert init[j - 1] == tokens[j - 1];
    }
  }

  /** Sorted and disjoint, seen by position. */
  predicate Laid(tokens: seq<Token>) {
    && (forall i | 0 <= i < |tokens| :: tokens[i].start < tokens[i].end)
    && (forall i, j | 0 <= i < j < |tokens| :: tokens[i].end <= tokens[j].start)
  }

  lemma LaidSnoc(tokens: seq<Token>, last: Token)
    requires Laid(tokens) && last.start < last.end && forall t | t in tokens :: t.end <= last.start
    ensures Laid(tokens + [last])
  {
  }

  lemma LaidInit(tokens: seq<Token>)
    requires Laid(tokens) && tokens != []
    ensures var init, last := tokens[..|tokens| - 1], tokens[|tokens| - 1];
            Laid(init) && last.start < last.end && forall t | t in init :: t.end <= last.start
  {
  }

  lemma {:induction false} FilterKeepsOrder(tokens: seq<Token>, ranges: seq<Range>)
    requires Laid(tokens)
    ensures Laid(Filter(tokens, ranges))
  {
    if tokens != [] {
      var init, last := tokens[..|tokens| - 1], tokens[|tokens| - 1];
      LaidInit(tokens);
      FilterKeepsOrder(init, ranges);
      forall t | t in Filter(init, ranges) ensures t.end <= last.start {
        FilterHolds(init, ranges, t);
      }
      LaidSnoc(Filter(init, ranges), last);
      assert Filter(init, ranges) + [] == Filter(init, ranges);
    }
  }

  lemma CanonicalIsLaid(tokens: seq<Token>, side: Document.Side)
    requires Canonical(tokens, side)
    ensures Laid(tokens)
  {
    forall i, j | 0 <= i < j < |tokens| ensures tokens[i].end <= tokens[j].start {
      CanonicalAt(tokens, side, i, j);
    }
    forall i | 0 <= i < |tokens| ensures tokens[i].start < tokens[i].end {
      CanonicalAt(tokens, side, i, i);
    }
  }

  lemma LaidPair(tokens: seq<Token>, i: nat, j: nat)
    requires Laid(tokens)
    ensures i < j < |tokens| ==> tokens[i].end <= tokens[j].start
  {
  }

  /* ---- Sorting and merging the ranges ---- */

  predicate Before(a: Range, b: Range) {
    a.0 < b.0 || (a.0 == b.0 && a.1 <= b.1)
  }

  lemma BeforeOrders()
    ensures TotalPreorder(Before)
  {
  }

  /** Non-empty ranges with a gap between neighbours. */
  predicate Gapped(merged: seq<Range>) {
    && (forall i | 0 <= i < |merged| :: merged[i].0 < merged[i].1)
    && (forall i | 0 < i < |merged| :: merged[i - 1].1 < merged[i].0)
  }

  function Larger(a: nat, b: nat): nat {
    if a < b then b else a
  }

  /** A range that begins inside the last one adds nothing but length. */
  lemma JoinedRange(t: Token, a: Range, b: Range)
    requires t.start < t.end && a.0 < a.1 && b.0 < b.1 && a.0 <= b.0 <= a.1
    ensures Overlaps(t, (a.0, Larger(a.1, b.1))) <==> Overlaps(t, a) || Overlaps(t, b)
  {
  }

  lemma MergeWanted(t: Token, merged: seq<Range>, r: Range)
    requires t.start < t.end && merged != [] && r.0 < r.1
    requires merged[|merged| - 1].0 < merged[|merged| - 1].1 && merged[|merged| - 1].0 <= r.0 <= merged[|merged| - 1].1
    ensures var last := merged[|merged| - 1];
            Wanted(t, merged[..|merged| - 1] + [(last.0, Larger(last.1, r.1))]) <==> Wanted(t, merged) || Overlaps(t, r)
  {
    var init, last := merged[..|merged| - 1], merged[|merged| - 1];
    assert merged == init + [last];
    WantedSnoc(t, init, last);
    WantedSnoc(t, init, (last.0, Larger(last.1, r.1)));
    JoinedRange(t, last, r);
  }

  method NonEmptyRanges(ranges: seq<Range>) returns (kept: seq<Range>)
    ensures forall r :: r in kept <==> r in ranges && r.0 < r.1
  {
    kept := [];
    for k := 0 to |ranges|
      invariant forall r :: r in kept <==> r in ranges[..k] && r.0 < r.1
    {
      assert ranges[..k + 1] == ranges[..k] + [ranges[k]];
      if ranges[k].0 < ranges[k].1 {
        kept := kept + [ranges[k]];
      }
    }
    assert ranges[..|ranges|] == ranges;
  }

  /** Touching and overlapping ranges become one; no span gains or loses by it. */
  method MergeRanges(ranges: seq<Range>) returns (merged: seq<Range>)
    requires SortedBy(ranges, Before) && forall r | r in ranges :: r.0 < r.1
    ensures Gapped(merged)
    ensures forall t: Token | t.start < t.end :: Wanted(t, merged) <==> Wanted(t, ranges)
  {
    merged := [];
    for k := 0 to |ranges|
      invariant Gapped(merged) && (merged != [] ==> k > 0 && merged[|merged| - 1].0 <= ranges[k - 1].0)
      invariant forall t: Token | t.start < t.end :: Wanted(t, merged) <==> Wanted(t, ranges[..k])
    {
      var r := ranges[k];
      assert r in ranges;
      ghost var before := merged;
      if k > 0 {
        BeforeOrders();
        SortedPair(ranges, Before, k - 1, k);
      }
      if merged != [] && r.0 <= merged[|merged| - 1].1 {
        var last := merged[|merged| - 1];
        forall t: Token | t.start < t.end
          ensures Wanted(t, merged[..|merged| - 1] + [(last.0, Larger(last.1, r.1))]) <==> Wanted(t, ranges[..k + 1])
        {
          MergeWanted(t, merged, r);
          WantedStep(t, ranges, k);
        }
        merged := merged[..|merged| - 1] + [(last.0, Larger(last.1, r.1))];
      } else {
        forall t: Token | t.start < t.end ensures Wanted(t, merged + [r]) <==> Wanted(t, ranges[..k + 1]) {
          WantedSnoc(t, merged, r);
          WantedStep(t, ranges, k);
        }
        merged := merged + [r];
      }
    }
    assert ranges[..|ranges|] == ranges;
  }

  /* ---- The lookup ---- */

  /** Binary search for the first span that ends after `start`. */
  method PartitionPoint(tokens: seq<Token>, start: nat) returns (first: nat)
    requires Laid(tokens)
    ensures first <= |tokens|
    ensures forall i | 0 <= i < first :: tokens[i].end <= start
    ensures forall i | first <= i < |tokens| :: start < tokens[i].end
  {
    var low, high := 0, |tokens|;
    while low < high
      invariant 0 <= low <= high <= |tokens|
      invariant forall i | 0 <= i < low :: tokens[i].end <= start
      invariant forall i | high <= i < |tokens| :: start < tokens[i].end
    {
      var mid := (low + high) / 2;
      if tokens[mid].end <= start {
        assert forall i | 0 <= i < mid :: tokens[i].end <= tokens[mid].start;
        low := mid + 1;
      } else {
        assert forall i | mid < i < |tokens| :: tokens[mid].end <= tokens[i].start;
        high := mid;
      }
    }
    first := low;
  }

  function Next(lastIndex: Option<nat>): nat {
    match lastIndex
    case None => 0
    case Some(index) => index + 1
  }

  /** The spans found for the first `i` ranges, the last of them at `n - 1`. */
  predicate Seen(tokens: seq<Token>, merged: seq<Range>, i: nat, n: nat, visible: seq<Token>)
    requires i <= |merged|
  {
    && n <= |tokens|
    && visible == Filter(tokens[..n], merged[..i])
    && (forall j | n <= j < |tokens| :: !Wanted(tokens[j], merged[..i]))
    && (n > 0 ==> i > 0 && tokens[n - 1].start < merged[i - 1].1)
  }

  /** Moving on to the next range: what was found stays, and only the last span found can reach into it. */
  lemma NextRange(tokens: seq<Token>, merged: seq<Range>, i: nat, n: nat, visible: seq<Token>, first: nat)
    requires Laid(tokens) && Gapped(merged) && i < |merged| && Seen(tokens, merged, i, n, visible)
    requires first <= |tokens|
    requires forall j | 0 <= j < first :: tokens[j].end <= merged[i].0
    requires forall j | first <= j < |tokens| :: merged[i].0 < tokens[j].end
    ensures n <= first + 1
    ensures forall j | 0 <= j < first :: Wanted(tokens[j], merged[..i + 1]) == Wanted(tokens[j], merged[..i])
  {
    forall j | 0 <= j < first ensures Wanted(tokens[j], merged[..i + 1]) == Wanted(tokens[j], merged[..i]) {
      WantedStep(tokens[j], merged, i);
    }
    LaidPair(tokens, first, if n > 0 then n - 1 else 0);
  }

  lemma KeepFound(tokens: seq<Token>, merged: seq<Range>, i: nat, n: nat, visible: seq<Token>, first: nat)
    requires Laid(tokens) && Gapped(merged) && i < |merged| && Seen(tokens, merged, i, n, visible)
    requires first <= |tokens| && n <= first + 1
    requires forall j | 0 <= j < first :: Wanted(tokens[j], merged[..i + 1]) == Wanted(tokens[j], merged[..i])
    requires n == first + 1 ==> Wanted(tokens[first], merged[..i])
    ensures visible == Filter(tokens[..n], merged[..i + 1])
    ensures forall j | n <= j < first :: !Wanted(tokens[j], merged[..i + 1])
  {
    if n == first + 1 {
      WantedStep(tokens[first], merged, i);
    }
    FilterAgrees(tokens[..n], merged[..i], merged[..i + 1]);
  }

  /** Half way through the spans of range `i`: those before `index` have been looked at, and `n - 1` was found last. */
  predicate Scanning(tokens: seq<Token>, merged: seq<Range>, i: nat, index: nat, n: nat, visible: seq<Token>)
    requires i < |merged|
  {
    && index <= |tokens| && n <= |tokens| && n <= index + 1
    && visible == Filter(tokens[..n], merged[..i + 1])
    && (forall j | n <= j < index :: !Wanted(tokens[j], merged[..i + 1]))
    && (forall j | index <= j < |tokens| && n <= j :: !Wanted(tokens[j], merged[..i]))
    && (n > 0 ==> tokens[n - 1].start < merged[i].1 && Wanted(tokens[n - 1], merged[..i + 1]))
  }

  lemma ScanStarts(tokens: seq<Token>, merged: seq<Range>, i: nat, n: nat, visible: seq<Token>, first: nat)
    requires Laid(tokens) && Gapped(merged) && i < |merged| && Seen(tokens, merged, i, n, visible)
    requires n > 0 ==> Wanted(tokens[n - 1], merged[..i])
    requires first <= |tokens|
    requires forall j | 0 <= j < first :: tokens[j].end <= merged[i].0
    requires forall j | first <= j < |tokens| :: merged[i].0 < tokens[j].end
    ensures Scanning(tokens, merged, i, first, n, visible)
  {
    NextRange(tokens, merged, i, n, visible, first);
    KeepFound(tokens, merged, i, n, visible, first);
    if n > 0 {
      WantedStep(tokens[n - 1], merged, i);
    }
  }

  /** The next span reaches into the range: it is added unless it was the one found last. */
  lemma ScanStep(tokens: seq<Token>, merged: seq<Range>, i: nat, index: nat, n: nat, visible: seq<Token>)
    requires i < |merged| && Scanning(tokens, merged, i, index, n, visible) && index < |tokens|
    requires Overlaps(tokens[index], merged[i])
    ensures n == index + 1 ==> Scanning(tokens, merged, i, index + 1, n, visible)
    ensures n <= index ==> Scanning(tokens, merged, i, index + 1, index + 1, visible + [tokens[index]])
  {
    WantedStep(tokens[index], merged, i);
    if n <= index {
      FilterSkip(tokens, n, index, merged[..i + 1]);
      assert tokens[..index + 1][..index] == tokens[..index];
    }
  }

  /** Past the end of the range nothing more overlaps it. */
  lemma ScanEnds(tokens: seq<Token>, merged: seq<Range>, i: nat, index: nat, n: nat, visible: seq<Token>)
    requires Laid(tokens) && i < |merged| && Scanning(tokens, merged, i, index, n, visible)
    requires index < |tokens| ==> tokens[index].start >= merged[i].1
    ensures Seen(tokens, merged, i + 1, n, visible)
  {
    forall j | n <= j < |tokens| ensures !Wanted(tokens[j], merged[..i + 1]) {
      if j >= index {
        WantedStep(tokens[j], merged, i);
        assert index < j ==> tokens[index].end <= tokens[j].start;
      }
    }
  }

  method TakeWhileInside(tokens: seq<Token>, merged: seq<Range>, i: nat, first: nat, before: seq<Token>, last: Option<nat>)
    returns (visible: seq<Token>, lastIndex: Option<nat>, index: nat)
    requires i < |merged| && merged[i].0 < merged[i].1 && Scanning(tokens, merged, i, first, Next(last), before)
    requires forall j | first <= j < |tokens| :: merged[i].0 < tokens[j].end
    ensures Scanning(tokens, merged, i, index, Next(lastIndex), visible)
    ensures index < |tokens| ==> tokens[index].start >= merged[i].1
  {
    visible, lastIndex, index := before, last, first;
    while index < |tokens| && tokens[index].start < merged[i].1
      invariant first <= index && Scanning(tokens, merged, i, index, Next(lastIndex), visible)
    {
      ScanStep(tokens, merged, i, index, Next(lastIndex), visible);
      if lastIndex != Some(index) {
        visible := visible + [tokens[index]];
        lastIndex := Some(index);
      }
      index := index + 1;
    }
  }

  /** The spans of one range, added to those of the ranges before it. */
  method ScanRange(tokens: seq<Token>, merged: seq<Range>, i: nat, before: seq<Token>, last: Option<nat>)
    returns (visible: seq<Token>, lastIndex: Option<nat>)
    requires Laid(tokens) && Gapped(merged) && i < |merged| && Seen(tokens, merged, i, Next(last), before)
    requires last.Some? ==> Wanted(tokens[last.value], merged[..i])
    ensures Seen(tokens, merged, i + 1, Next(lastIndex), visible)
    ensures lastIndex.Some? ==> Wanted(tokens[lastIndex.value], merged[..i + 1])
  {
    var first := PartitionPoint(tokens, merged[i].0);
    ScanStarts(tokens, merged, i, Next(last), before, first);
    var index;
    visible, lastIndex, index := TakeWhileInside(tokens, merged, i, first, before, last);
    ScanEnds(tokens, merged, i, index, Next(lastIndex), visible);
  }

  lemma WantedAlike(tokens: seq<Token>, a: seq<Range>, b: seq<Range>, c: seq<Range>)
    requires Laid(tokens)
    requires forall r :: r in b <==> r in a && r.0 < r.1
    requires forall t: Token | t.start < t.end :: Wanted(t, c) <==> Wanted(t, b)
    ensures Filter(tokens, c) == Filter(tokens, a)
  {
    forall t | t in tokens ensures Wanted(t, c) == Wanted(t, a) {
      if Wanted(t, a) {
        var r :| r in a && Overlaps(t, r);
        assert r in b;
      }
      if Wanted(t, b) {
        var r :| r in b && Overlaps(t, r);
        assert r in a;
      }
    }
    FilterAgrees(tokens, c, a);
  }

  /** Sort, merge and binary search find exactly the spans that overlap some non-empty requested range, in order and each
      once, for any list of ranges and any sorted, disjoint spans. */
  method TokensInByteRanges(tokens: seq<Token>, byteRanges: Option<seq<Range>>) returns (visible: seq<Token>)
    requires Laid(tokens)
    ensures visible == Visible(tokens, byteRanges)
  {
    if byteRanges.None? {
      return tokens;
    }
    var wanted := byteRanges.value;
    if wanted == [] {
      FilterSkip(tokens, 0, |tokens|, wanted);
      assert tokens[..|tokens|] == tokens;
      return [];
    }
    var kept := NonEmptyRanges(wanted);
    var sorted := SortBy(kept, Before);
    BeforeOrders();
    SortSorts(kept, Before);
    SortPermutes(kept, Before);
    SameMembers(kept, sorted);
    var merged := MergeRanges(sorted);
    var lastIndex: Option<nat> := None;
    visible := [];
    for i := 0 to |merged|
      invariant Seen(tokens, merged, i, Next(lastIndex), visible)
      invariant lastIndex.Some? ==> Wanted(tokens[lastIndex.value], merged[..i])
    {
      visible, lastIndex := ScanRange(tokens, merged, i, visible, lastIndex);
    }
    assert merged[..|merged|] == merged && tokens[..|tokens|] == tokens;
    FilterSkip(tokens, Next(lastIndex), |tokens|, merged);
    WantedAlike(tokens, wanted, sorted, merged);
  }
}
