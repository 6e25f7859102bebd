/** Compiling nested highlight events to flat spans (the event loop of `highlight_ranges` and `push_valid_span` in
    crates/highlight/src/lib.rs). */
module HighlightSpans {
  import opened Wrappers
  import Document

  /** A syntax class, by name. */
  type Class = string

  datatype Token = Token(side: Document.Side, start: nat, end: nat, syntax: Class)

  datatype Event = HighlightStart(index: nat) | HighlightEnd | Source(start: nat, end: nat)

  /** The class a capture index stands for; an index outside the table stands for none. */
  type ClassTable = seq<Class>

  function ClassOf(names: ClassTable, stack: seq<nat>): Option<Class> {
    if stack != [] && stack[|stack| - 1] < |names| then Some(names[stack[|stack| - 1]]) else None
  }

  /** A UTF-8 continuation byte begins no character. */
  predicate IsCharBoundary(source: seq<Byte>, i: nat) {
    i == 0 || i == |source| || (i < |source| && !(0x80 <= source[i] < 0xC0))
  }

  predicate IsValidSpan(source: seq<Byte>, start: nat, end: nat) {
    && start < end <= |source| && IsCharBoundary(source, start) && IsCharBoundary(source, end)
    && start <= U32_MAX && end <= U32_MAX
  }

  /* ---- The meaning of an event stream ---- */

  function StackAfter(events: seq<Event>): seq<nat> {
    if events == [] then []
    else
      var stack := StackAfter(events[..|events| - 1]);
      match events[|events| - 1]
      case HighlightStart(index) => stack + [index]
      case HighlightEnd => if stack == [] then [] else stack[..|stack| - 1]
      case Source(_, _) => stack
  }

  /** The span an event colours, when it does. */
  function Coloured(events: seq<Event>, source: seq<Byte>, names: ClassTable, side: Document.Side): Option<Token>
    requires events != []
  {
    var last := events[|events| - 1];
    var syntax := ClassOf(names, StackAfter(events[..|events| - 1]));
    if last.Source? && syntax.Some? && IsValidSpan(source, last.start, last.end)
    then Some(Token(side, last.start, last.end, syntax.value)) else None
  }

  predicate Covers(t: Token, b: nat) {
    t.start <= b < t.end
  }

  /** The class byte `b` gets from the events: that of the innermost open highlight at the source event around it. */
  function Meaning(events: seq<Event>, source: seq<Byte>, names: ClassTable, b: nat): Option<Class> {
    if events == [] then None
    else
      var span := Coloured(events, source, names, Document.Old);
      if span.Some? && Covers(span.value, b) then Some(span.value.syntax)
      else Meaning(events[..|events| - 1], source, names, b)
  }

  /** Where the last source event ended. */
  function SourceEnd(events: seq<Event>): nat {
    if events == [] then 0
    else if events[|events| - 1].Source? then events[|events| - 1].end
    else SourceEnd(events[..|events| - 1])
  }

  /** Source events do not go back over each other. */
  predicate InOrder(events: seq<Event>) {
    events == [] ||
    (InOrder(events[..|events| - 1]) &&
     (events[|events| - 1].Source? ==>
        SourceEnd(events[..|events| - 1]) <= events[|events| - 1].start <= events[|events| - 1].end))
  }

  /* ---- Spans ---- */

  /** The class byte `b` has in a list of spans. */
  function ClassAt(tokens: seq<Token>, b: nat): Option<Class> {
    if tokens == [] then None
    else if Covers(tokens[|tokens| - 1], b) then Some(tokens[|tokens| - 1].syntax)
    else ClassAt(tokens[..|tokens| - 1], b)
  }

  /** Two spans in order that could not have been one. */
  predicate Apart(a: Token, b: Token) {
    a.end <= b.start && (a.end == b.start ==> a.syntax != b.syntax)
  }

  /** Sorted, non-empty, disjoint, of one side, and no two touching spans of one class. */
  predicate Canonical(tokens: seq<Token>, side: Document.Side) {
    tokens == [] ||
    (var last := tokens[|tokens| - 1];
     && Canonical(tokens[..|tokens| - 1], side) && last.side == side && last.start < last.end
     && (|tokens| > 1 ==> Apart(tokens[|tokens| - 2], last)))
  }

  /** Adds a span, or lengthens the last one when they touch and agree. */
  function Push(tokens: seq<Token>, t: Token): seq<Token> {
    if tokens != [] && tokens[|tokens| - 1].side == t.side && tokens[|tokens| - 1].syntax == t.syntax &&
       tokens[|tokens| - 1].end == t.start
    then tokens[..|tokens| - 1] + [tokens[|tokens| - 1].(end := t.end)]
    else tokens + [t]
  }

  method PushValidSpan(tokens: seq<Token>, source: seq<Byte>, side: Document.Side, start: nat, end: nat, syntax: Class)
    returns (pushed: seq<Token>)
    ensures pushed == if IsValidSpan(source, start, end) then Push(tokens, Token(side, start, end, syntax)) else tokens
  {
    if start >= end || end > |source| || !IsCharBoundary(source, start) || !IsCharBoundary(source, end) {
      return tokens;
    }
    if start > U32_MAX || end > U32_MAX {
      return tokens;
    }
    if tokens != [] {
      var previous := tokens[|tokens| - 1];
      if previous.side == side && previous.syntax == syntax && previous.end == start {
        return tokens[..|tokens| - 1] + [previous.(end := end)];
      }
    }
    return tokens + [Token(side, start, end, syntax)];
  }

  function LastEnd(tokens: seq<Token>): nat {
    if tokens == [] then 0 else tokens[|tokens| - 1].end
  }

  /** Pushing keeps the form canonical and colours exactly the new bytes. */
  lemma PushCanonical(tokens: seq<Token>, t: Token)
    requires Canonical(tokens, t.side) && LastEnd(tokens) <= t.start < t.end
    ensures Canonical(Push(tokens, t), t.side) && LastEnd(Push(tokens, t)) == t.end
  {
    var pushed := Push(tokens, t);
    assert pushed[..|pushed| - 1] == (if |pushed| == |tokens| then tokens[..|tokens| - 1] else tokens);
  }

  lemma PushColours(tokens: seq<Token>, t: Token, b: nat)
    requires Canonical(tokens, t.side) && LastEnd(tokens) <= t.start < t.end
    ensures ClassAt(Push(tokens, t), b) == if Covers(t, b) then Some(t.syntax) else ClassAt(tokens, b)
  {
    var pushed := Push(tokens, t);
    assert pushed[..|pushed| - 1] == (if |pushed| == |tokens| then tokens[..|tokens| - 1] else tokens);
  }

  /** The spans of an event stream. */
  function Compile(events: seq<Event>, source: seq<Byte>, names: ClassTable, side: Document.Side): seq<Token> {
    if events == [] then []
    else
      var before := Compile(events[..|events| - 1], source, names, side);
      match Coloured(events, source, names, side)
      case Some(t) => Push(before, t)
      case None => before
  }

  /** The event loop: a stack of open highlights and the spans so far. */
  method CompileEvents(events: seq<Event>, source: seq<Byte>, names: ClassTable,
      side: Document.Side) returns (tokens: seq<Token>)
    ensures tokens == Compile(events, source, names, side)
  {
    tokens := [];
    var stack: seq<nat> := [];
    for k := 0 to |events|
      invariant stack == StackAfter(events[..k])
      invariant tokens == Compile(events[..k], source, names, side)
    {
      ghost var done := events[..k + 1];
      assert done[..k] == events[..k] && done[k] == events[k];
      match events[k] {
        case HighlightStart(index) => stack := stack + [index];
        case HighlightEnd => stack := if stack == [] then [] else stack[..|stack| - 1];
        case Source(start, end) =>
          var syntax := ClassOf(names, stack);
          if syntax.Some? {
            tokens := PushValidSpan(tokens, source, side, start, end, syntax.value);
          }
      }
    }
    assert events[..|events|] == events;
  }

  /** Stack and coalescing preserve meaning: for source events in order, the spans give every byte the class of the event
      stream, and they are in canonical form. */
  lemma {:induction false} CompilePreservesMeaning(events: seq<Event>, source: seq<Byte>, names: ClassTable,
      side: Document.Side, b: nat)
    requires InOrder(events)
    ensures Canonical(Compile(events, source, names, side), side)
    ensures LastEnd(Compile(events, source, names, side)) <= SourceEnd(events)
    ensures ClassAt(Compile(events, source, names, side), b) == Meaning(events, source, names, b)
  {
    if events != [] {
      var init := events[..|events| - 1];
      CompilePreservesMeaning(init, source, names, side, b);
      var span := Coloured(events, source, names, side);
      if span.Some? {
        PushCanonical(Compile(init, source, names, side), span.value);
        PushColours(Compile(init, source, names, side), span.value, b);
      }
    }
  }

  /* ---- Canonical means unique ---- */

  lemma {:induction false} ColouredBytesEnd(tokens: seq<Token>, side: Document.Side, b: nat)
    requires Canonical(tokens, side) && ClassAt(tokens, b).Some?
    ensures b < LastEnd(tokens)
  {
    if !Covers(tokens[|tokens| - 1], b) {
      var init := tokens[..|tokens| - 1];
      ColouredBytesEnd(init, side, b);
      assert init != [] && tokens[|tokens| - 2] == init[|init| - 1];
    }
  }

  /** The byte before a span's start is of another class, or of none. */
  lemma BeforeStart(tokens: seq<Token>, side: Document.Side)
    requires Canonical(tokens, side) && tokens != [] && tokens[|tokens| - 1].start > 0
    ensures ClassAt(tokens, tokens[|tokens| - 1].start - 1) != Some(tokens[|tokens| - 1].syntax)
  {
    var last, init := tokens[|tokens| - 1], tokens[..|tokens| - 1];
    if init != [] {
      assert init[|init| - 1] == tokens[|tokens| - 2];
      if ClassAt(init, last.start - 1).Some? {
        ColouredBytesEnd(init, side, last.start - 1);
      }
    }
  }

  lemma SameLast(a: seq<Token>, b: seq<Token>, side: Document.Side)
    requires Canonical(a, side) && Canonical(b, side) && a != [] && b != []
    requires forall i: nat :: ClassAt(a, i) == ClassAt(b, i)
    ensures a[|a| - 1] == b[|b| - 1]
  {
    var x, y := a[|a| - 1], b[|b| - 1];
    assert ClassAt(a, x.end - 1) == Some(x.syntax) && ClassAt(b, y.end - 1) == Some(y.syntax);
    ColouredBytesEnd(b, side, x.end - 1);
    ColouredBytesEnd(a, side, y.end - 1);
    StartsNoEarlier(a, b, side);
    StartsNoEarlier(b, a, side);
  }

  lemma StartsNoEarlier(a: seq<Token>, b: seq<Token>, side: Document.Side)
    requires Canonical(a, side) && Canonical(b, side) && a != [] && b != []
    requires forall i: nat :: ClassAt(a, i) == ClassAt(b, i)
    requires a[|a| - 1].end == b[|b| - 1].end && a[|a| - 1].syntax == b[|b| - 1].syntax
    ensures b[|b| - 1].start <= a[|a| - 1].start
  {
    var x, y := a[|a| - 1], b[|b| - 1];
    if y.start > 0 {
      var i := y.start - 1;
      assert Covers(x, i) ==> ClassAt(a, i) == Some(x.syntax);
      assert ClassAt(a, i) == ClassAt(b, i);
      BeforeStart(b, side);
    }
  }

  lemma InitClass(tokens: seq<Token>, side: Document.Side, i: nat)
    requires Canonical(tokens, side) && tokens != []
    ensures ClassAt(tokens[..|tokens| - 1], i) == if i < tokens[|tokens| - 1].start then ClassAt(tokens, i) else None
  {
    var init := tokens[..|tokens| - 1];
    if ClassAt(init, i).Some? {
      ColouredBytesEnd(init, side, i);
      assert init[|init| - 1] == tokens[|tokens| - 2];
    }
  }

  lemma HasColour(tokens: seq<Token>, side: Document.Side)
    requires Canonical(tokens, side)
    ensures tokens != [] ==> ClassAt(tokens, tokens[|tokens| - 1].start).Some?
  {
  }

  /** Spans in canonical form are determined by the classes they give to bytes. */
  lemma {:induction false} CanonicalIsUnique(a: seq<Token>, b: seq<Token>, side: Document.Side)
    requires Canonical(a, side) && Canonical(b, side) && forall i: nat :: ClassAt(a, i) == ClassAt(b, i)
    ensures a == b
    decreases |a|
  {
    if a == [] || b == [] {
      HasColour(a, side);
      HasColour(b, side);
      assert b == [] ==> forall i: nat :: ClassAt(b, i).None?;
      assert a == [] ==> forall i: nat :: ClassAt(a, i).None?;
    } else {
      var restA, restB := a[..|a| - 1], b[..|b| - 1];
      SameLast(a, b, side);
      forall i: nat ensures ClassAt(restA, i) == ClassAt(restB, i) {
        InitClass(a, side, i);
        InitClass(b, side, i);
      }
      CanonicalIsUnique(restA, restB, side);
      assert a == restA + [a[|a| - 1]] && b == restB + [b[|b| - 1]];
    }
  }

  /* ---- What bytes are painted, from the events alone ---- */

  /** Highlights started less highlights ended among events `i` to `j - 1`. */
  function Balance(events: seq<Event>, i: nat, j: nat): int
    requires j <= |events|
    decreases j
  {
    if j <= i then 0
    else
      Balance(events, i, j - 1) +
      match events[j - 1] case HighlightStart(_) => 1 case HighlightEnd => -1 case Source(_, _) => 0
  }

  /** No highlight is ended from event `from` on that was started before it. */
  predicate NeverBelow(events: seq<Event>, from: nat, k: nat)
    requires k <= |events|
  {
    forall j | from <= j <= k :: Balance(events, from, j) >= 0
  }

  /** The highlight that event `i` starts has not been ended before event `k`. */
  predicate IsOpen(events: seq<Event>, i: nat, k: nat) {
    i < k <= |events| && events[i].HighlightStart? && NeverBelow(events, i + 1, k)
  }

  predicate IsInnermost(events: seq<Event>, i: nat, k: nat) {
    IsOpen(events, i, k) && forall other | i < other < k :: !IsOpen(events, other, k)
  }

  /** Event `k` is a source event around byte `b` whose innermost open highlight, started by event `i`, has a class. Its
      range lies in the source, begins and ends a character, and is in range of the tokens. */
  predicate Paints(events: seq<Event>, source: seq<Byte>, names: ClassTable, k: nat, i: nat, b: nat) {
    && k < |events| && events[k].Source? && events[k].start <= b < events[k].end <= |source|
    && events[k].end <= 0xFFFF_FFFF
    && (events[k].start == 0 || source[events[k].start] < 0x80 || source[events[k].start] >= 0xC0)
    && (events[k].end == |source| || source[events[k].end] < 0x80 || source[events[k].end] >= 0xC0)
    && IsInnermost(events, i, k) && events[i].index < |names|
  }

  /** Byte `b` is painted with the class by one of the first `n` events. */
  ghost predicate Painted(events: seq<Event>, source: seq<Byte>, names: ClassTable, n: nat, b: nat, c: Class) {
    exists k: nat, i: nat :: k < n && Paints(events, source, names, k, i, b) && names[events[i].index] == c
  }

  /** Where the open highlights started, outermost first. */
  function OpenAt(events: seq<Event>, k: nat): seq<nat>
    requires k <= |events|
  {
    if k == 0 then []
    else
      match events[k - 1]
      case HighlightStart(_) => OpenAt(events, k - 1) + [k - 1]
      case HighlightEnd => if OpenAt(events, k - 1) == [] then [] else OpenAt(events, k - 1)[..|OpenAt(events, k - 1)| - 1]
      case Source(_, _) => OpenAt(events, k - 1)
  }

  predicate OpensWell(events: seq<Event>, k: nat, opens: seq<nat>)
    requires k <= |events|
  {
    && (forall p, q | 0 <= p < q < |opens| :: opens[p] < opens[q])
    && (forall p | 0 <= p < |opens| :: IsOpen(events, opens[p], k) && Balance(events, opens[p] + 1, k) == |opens| - 1 - p)
  }

  lemma {:induction false} OpenStep(events: seq<Event>, i: nat, k: nat)
    requires 0 < k <= |events|
    ensures IsOpen(events, i, k) <==>
            (i == k - 1 && events[i].HighlightStart?) ||
            (IsOpen(events, i, k - 1) && (events[k - 1].HighlightEnd? ==> Balance(events, i + 1, k - 1) >= 1))
  {
    if i < k - 1 {
      assert Balance(events, i + 1, k) == Balance(events, i + 1, k - 1) + match events[k - 1]
             case HighlightStart(_) => 1 case HighlightEnd => -1 case Source(_, _) => 0;
    }
  }

  lemma OpensStep(events: seq<Event>, k: nat, before: seq<nat>, opens: seq<nat>)
    requires 0 < k <= |events| && OpensWell(events, k - 1, before)
    requires opens == match events[k - 1]
                      case HighlightStart(_) => before + [k - 1]
                      case HighlightEnd => if before == [] then [] else before[..|before| - 1]
                      case Source(_, _) => before
    ensures OpensWell(events, k, opens)
  {
    forall p | 0 <= p < |opens|
      ensures IsOpen(events, opens[p], k) && Balance(events, opens[p] + 1, k) == |opens| - 1 - p
    {
      OpenStep(events, opens[p], k);
      if p < |before| {
        assert opens[p] == before[p];
      }
    }
  }

  lemma {:induction false} OpensAreOpen(events: seq<Event>, k: nat)
    requires k <= |events|
    ensures OpensWell(events, k, OpenAt(events, k))
  {
    if k > 0 {
      OpensAreOpen(events, k - 1);
      OpensStep(events, k, OpenAt(events, k - 1), OpenAt(events, k));
    }
  }

  lemma {:induction false} OpenIsListed(events: seq<Event>, k: nat, i: nat)
    requires IsOpen(events, i, k)
    ensures i in OpenAt(events, k)
    decreases k
  {
    var before, opens := OpenAt(events, k - 1), OpenAt(events, k);
    OpenStep(events, i, k);
    if i < k - 1 {
      OpenIsListed(events, k - 1, i);
      OpensAreOpen(events, k - 1);
      var p :| 0 <= p < |before| && before[p] == i;
      assert p < |opens| && opens[p] == i;
    } else {
      assert opens[|opens| - 1] == i;
    }
  }

  /** The stack holds the highlights that are open, in the order they were started. */
  lemma {:induction false} StackIsOpen(events: seq<Event>, k: nat)
    requires k <= |events|
    ensures OpensWell(events, k, OpenAt(events, k))
    ensures |StackAfter(events[..k])| == |OpenAt(events, k)|
    ensures forall p | 0 <= p < |OpenAt(events, k)| :: StackAfter(events[..k])[p] == events[OpenAt(events, k)[p]].index
  {
    OpensAreOpen(events, k);
    if k > 0 {
      StackIsOpen(events, k - 1);
      assert events[..k][..k - 1] == events[..k - 1];
    }
  }

  lemma InnermostIsTop(events: seq<Event>, k: nat, i: nat)
    requires IsInnermost(events, i, k)
    ensures OpenAt(events, k) != [] && OpenAt(events, k)[|OpenAt(events, k)| - 1] == i
  {
    var opens := OpenAt(events, k);
    OpensAreOpen(events, k);
    OpenIsListed(events, k, i);
    assert IsOpen(events, opens[|opens| - 1], k);
  }

  lemma TopIsInnermost(events: seq<Event>, k: nat)
    requires k <= |events| && OpenAt(events, k) != []
    ensures IsInnermost(events, OpenAt(events, k)[|OpenAt(events, k)| - 1], k)
  {
    var opens := OpenAt(events, k);
    var top := opens[|opens| - 1];
    OpensAreOpen(events, k);
    forall other | top < other < k ensures !IsOpen(events, other, k) {
      if IsOpen(events, other, k) {
        OpenIsListed(events, k, other);
      }
    }
  }

  /** The last event of a prefix colours a byte exactly when it paints it. */
  lemma PaintsWhenColoured(events: seq<Event>, source: seq<Byte>, names: ClassTable, side: Document.Side, k: nat, b: nat,
                           c: Class)
    requires k < |events|
    ensures var span := Coloured(events[..k + 1], source, names, side);
            span.Some? && Covers(span.value, b) && span.value.syntax == c <==>
            exists i: nat :: Paints(events, source, names, k, i, b) && names[events[i].index] == c
  {
    var opens := OpenAt(events, k);
    assert events[..k + 1][..k] == events[..k] && events[..k + 1][k] == events[k];
    StackIsOpen(events, k);
    if opens != [] {
      TopIsInnermost(events, k);
      var span := Coloured(events[..k + 1], source, names, side);
      if span.Some? && Covers(span.value, b) && span.value.syntax == c {
        assert Paints(events, source, names, k, opens[|opens| - 1], b);
      }
    }
    forall i: nat | Paints(events, source, names, k, i, b) && names[events[i].index] == c
      ensures Coloured(events[..k + 1], source, names, side) == Some(Token(side, events[k].start, events[k].end, c))
    {
      InnermostIsTop(events, k, i);
    }
  }

  lemma {:induction false} SourcesEnd(events: seq<Event>, n: nat, k: nat)
    requires k < n <= |events| && InOrder(events[..n]) && events[k].Source?
    ensures events[k].end <= SourceEnd(events[..n])
  {
    assert events[..n][..n - 1] == events[..n - 1] && events[..n][n - 1] == events[n - 1];
    if k < n - 1 {
      SourcesEnd(events, n - 1, k);
    }
  }

  lemma {:induction false} MeaningIs(events: seq<Event>, source: seq<Byte>, names: ClassTable, n: nat, b: nat, c: Class)
    requires n <= |events| && InOrder(events[..n])
    ensures Meaning(events[..n], source, names, b) == Some(c) <==> Painted(events, source, names, n, b, c)
  {
    if n > 0 {
      assert events[..n][..n - 1] == events[..n - 1] && events[..n][n - 1] == events[n - 1];
      MeaningIs(events, source, names, n - 1, b, c);
      PaintsWhenColoured(events, source, names, Document.Old, n - 1, b, c);
      var span := Coloured(events[..n], source, names, Document.Old);
      if span.Some? && Covers(span.value, b) {
        forall k: nat, i: nat | k < n - 1 && Paints(events, source, names, k, i, b) ensures false {
          SourcesEnd(events, n - 1, k);
        }
      }
    }
  }

  lemma {:induction false} NoneCovers(tokens: seq<Token>, b: nat, t: Token)
    requires ClassAt(tokens, b).None? && t in tokens
    ensures !(t.start <= b < t.end)
  {
    var init, last := tokens[..|tokens| - 1], tokens[|tokens| - 1];
    assert tokens == init + [last];
    if t != last {
      NoneCovers(init, b, t);
    }
  }

  lemma {:induction false} ClassIs(tokens: seq<Token>, side: Document.Side, b: nat, c: Class)
    requires Canonical(tokens, side)
    ensures ClassAt(tokens, b) == Some(c) <==> exists t :: t in tokens && t.start <= b < t.end && t.syntax == c
  {
    if tokens != [] {
      var init, last := tokens[..|tokens| - 1], tokens[|tokens| - 1];
      assert tokens == init + [last];
      ClassIs(init, side, b, c);
      if Covers(last, b) {
        assert init != [] ==> init[|init| - 1] == tokens[|tokens| - 2];
        assert ClassAt(init, b).None? by {
          if ClassAt(init, b).Some? {
            ColouredBytesEnd(init, side, b);
          }
        }
        forall t | t in init ensures !(t.start <= b < t.end) {
          NoneCovers(init, b, t);
        }
      }
    }
  }

  /** Sorted, non-empty and of one side, with a gap or a change of class between any two neighbours. */
  predicate IsShortest(tokens: seq<Token>, side: Document.Side) {
    && (forall k | 0 <= k < |tokens| :: tokens[k].side == side && tokens[k].start < tokens[k].end)
    && (forall k | 0 < k < |tokens| ::
          tokens[k - 1].end < tokens[k].start ||
          (tokens[k - 1].end == tokens[k].start && tokens[k - 1].syntax != tokens[k].syntax))
  }

  lemma ShortestSnoc(init: seq<Token>, last: Token, side: Document.Side)
    ensures IsShortest(init + [last], side) <==>
            IsShortest(init, side) && last.side == side && last.start < last.end &&
            (init != [] ==> Apart(init[|init| - 1], last))
  {
    var tokens := init + [last];
    assert forall k | 0 <= k < |init| :: tokens[k] == init[k];
    assert tokens[|init|] == last;
  }

  lemma {:induction false} CanonicalMeans(tokens: seq<Token>, side: Document.Side)
    ensures Canonical(tokens, side) <==> IsShortest(tokens, side)
  {
    if tokens != [] {
      var init, last := tokens[..|tokens| - 1], tokens[|tokens| - 1];
      assert tokens == init + [last];
      CanonicalMeans(init, side);
      ShortestSnoc(init, last, side);
    }
  }

  /** The compiled spans, told from the events alone: for source events in order a byte is in a span of a class exactly when
      an event paints it so, and the spans are the shortest list that says it. */
  lemma SpansPaintBytes(events: seq<Event>, source: seq<Byte>, names: ClassTable, side: Document.Side, b: nat, c: Class)
    requires InOrder(events)
    ensures (exists t :: t in Compile(events, source, names, side) && t.start <= b < t.end && t.syntax == c) <==>
            Painted(events, source, names, |events|, b, c)
    ensures IsShortest(Compile(events, source, names, side), side)
  {
    CompilePreservesMeaning(events, source, names, side, b);
    ClassIs(Compile(events, source, names, side), side, b, c);
    CanonicalMeans(Compile(events, source, names, side), side);
    assert events[..|events|] == events;
    MeaningIs(events, source, names, |events|, b, c);
  }
}
