/** The desktop's loop that reads a whole source window by window (`read_remote_source` in src-tauri/src/controller.rs),
    against any peer, and against the companion that serves the windows. */
module RemoteSource {
  import opened Wrappers
  import opened SourceWindow
  import opened Companion

  const MAX_LINES := 4096
  const MAX_WINDOWS_PER_FILE := 16384
  const MAX_SOURCE_BYTES := 64 * 1024 * 1024

  datatype RemoteError = Transport | Refused(cause: ReadError) | Unexpected | NotEchoed | Changed | TooBig | Mismatch |
                         NotText | NoProgress | OverBudget

  datatype Target = Target(captureId: CaptureId, generation: nat, repository: string, path: string, revision: Revision) {
    function At(startLine: nat): Request {
      Request(generation, captureId, generation, repository, path, revision, Query(startLine, MAX_LINES))
    }
  }

  /** What a window says it is a window of. */
  datatype Echo = Echo(target: Target, startLine: nat)

  /** What comes back for one request: any peer may send anything. */
  datatype Reply = Failed | Refusal(cause: ReadError) | Other | Sent(echo: Echo, window: Window)

  /* ---- What is accepted from any peer ---- */

  function BytesOf(reply: Reply): seq<Byte> {
    if reply.Sent? then reply.window.bytes else []
  }

  /** The bytes of the first `n` replies. */
  function Joined(replies: nat -> Reply, n: nat): seq<Byte> {
    if n == 0 then [] else Joined(replies, n - 1) + BytesOf(replies(n - 1))
  }

  /** The k-th reply is a window of this source from the line asked for, of the same whole as the first one, and the source
      is not too big so far. */
  predicate Fits(target: Target, replies: nat -> Reply, k: nat) {
    var first, reply := replies(0), replies(k);
    && first.Sent? && reply.Sent? && reply.echo == Echo(target, k * 4096 + 1)
    && reply.window.digest == first.window.digest && reply.window.totalLines == first.window.totalLines
    && reply.window.byteLen <= 67_108_864 && |Joined(replies, k + 1)| <= 67_108_864
  }

  predicate GoesOn(target: Target, replies: nat -> Reply, k: nat) {
    Fits(target, replies, k) && !replies(k).window.endOfFile && replies(k).window.bytes != []
  }

  /** The k-th reply ends the source, and the bytes joined are what it and all others say they are a part of. */
  predicate Ends(target: Target, replies: nat -> Reply, k: nat, utf8: seq<Byte> -> bool) {
    && Fits(target, replies, k) && replies(k).window.endOfFile
    && |Joined(replies, k + 1)| == replies(k).window.byteLen && Digest(Joined(replies, k + 1)) == replies(k).window.digest
    && utf8(Joined(replies, k + 1))
  }

  /** Why the k-th reply stops the loop, the first reason first. */
  function Fault(target: Target, replies: nat -> Reply, k: nat, utf8: seq<Byte> -> bool): RemoteError {
    var first, reply := replies(0), replies(k);
    match reply
    case Failed => Transport
    case Refusal(cause) => Refused(cause)
    case Other => Unexpected
    case Sent(echo, w) =>
      if echo != Echo(target, k * MAX_LINES + 1) then NotEchoed
      else if first.Sent? && (w.digest != first.window.digest || w.totalLines != first.window.totalLines) then Changed
      else if w.byteLen > MAX_SOURCE_BYTES || |Joined(replies, k + 1)| > MAX_SOURCE_BYTES then TooBig
      else if !w.endOfFile then NoProgress
      else if |Joined(replies, k + 1)| != w.byteLen || Digest(Joined(replies, k + 1)) != w.digest then Mismatch
      else NotText
  }

  ghost predicate AllGoOn(target: Target, replies: nat -> Reply, n: nat) {
    forall k: nat | k < n :: GoesOn(target, replies, k)
  }

  ghost predicate Accepts(target: Target, replies: nat -> Reply, n: nat, utf8: seq<Byte> -> bool) {
    n < 16_384 && AllGoOn(target, replies, n) && Ends(target, replies, n, utf8)
  }

  lemma NeverAccepted(target: Target, replies: nat -> Reply, k: nat, utf8: seq<Byte> -> bool)
    requires AllGoOn(target, replies, k)
    requires k >= MAX_WINDOWS_PER_FILE || (!GoesOn(target, replies, k) && !Ends(target, replies, k, utf8))
    ensures forall n: nat :: !Accepts(target, replies, n, utf8)
  {
    forall n: nat | n < MAX_WINDOWS_PER_FILE ensures !Accepts(target, replies, n, utf8) {
      if n < k {
        assert GoesOn(target, replies, n);
      } else if k < n {
        assert AllGoOn(target, replies, n) ==> GoesOn(target, replies, k);
      }
    }
  }

  /** Reads a source window by window. Whatever the peer sends, a source that is returned is made of the windows asked for,
      one after the other up to one that ends it, all of one whole whose length and digest it has; and it is returned
      whenever the replies are like that. */
  method ReadRemoteSource(target: Target, replies: nat -> Reply, utf8: seq<Byte> -> bool)
    returns (r: Result<seq<Byte>, RemoteError>, n: nat)
    ensures r.Ok? ==> Accepts(target, replies, n, utf8) && r.value == Joined(replies, n + 1)
    ensures r.Err? ==> forall k: nat :: !Accepts(target, replies, k, utf8)
    ensures r.Err? ==> n <= MAX_WINDOWS_PER_FILE && AllGoOn(target, replies, n)
    ensures r.Err? ==> if n == MAX_WINDOWS_PER_FILE then r.error == OverBudget
                       else !GoesOn(target, replies, n) && !Ends(target, replies, n, utf8) &&
                            r.error == Fault(target, replies, n, utf8)
  {
    var startLine: nat := 1;
    var digest: Option<Digest>, total: Option<nat> := None, None;
    var output: seq<Byte> := [];
    for k := 0 to MAX_WINDOWS_PER_FILE
      invariant AllGoOn(target, replies, k) && output == Joined(replies, k) && startLine == k * MAX_LINES + 1
      invariant k > 0 ==> replies(0).Sent?
      invariant digest == if k == 0 then None else Some(replies(0).window.digest)
      invariant total == if k == 0 then None else Some(replies(0).window.totalLines)
    {
      n := k;
      var reply := replies(k);
      assert Joined(replies, k + 1) == output + BytesOf(reply);
      if k > 0 {
        assert GoesOn(target, replies, 0);
      }
      if !reply.Sent? {
        NeverAccepted(target, replies, k, utf8);
        return Err(if reply.Failed? then Transport else if reply.Refusal? then Refused(reply.cause) else Unexpected), n;
      }
      var w := reply.window;
      if reply.echo != Echo(target, startLine) {
        NeverAccepted(target, replies, k, utf8);
        return Err(NotEchoed), n;
      }
      if (digest.Some? && digest.value != w.digest) || (total.Some? && total.value != w.totalLines) {
        NeverAccepted(target, replies, k, utf8);
        return Err(Changed), n;
      }
      digest, total := Some(w.digest), Some(w.totalLines);
      if w.byteLen > MAX_SOURCE_BYTES || |output| + |w.bytes| > MAX_SOURCE_BYTES {
        NeverAccepted(target, replies, k, utf8);
        return Err(TooBig), n;
      }
      output := output + w.bytes;
      if w.endOfFile {
        if |output| != w.byteLen || Digest(output) != w.digest {
          NeverAccepted(target, replies, k, utf8);
          return Err(Mismatch), n;
        }
        if !utf8(output) {
          NeverAccepted(target, replies, k, utf8);
          return Err(NotText), n;
        }
        return Ok(output), n;
      }
      if w.bytes == [] {
        NeverAccepted(target, replies, k, utf8);
        return Err(NoProgress), n;
      }
      startLine := startLine + MAX_LINES;
    }
    NeverAccepted(target, replies, MAX_WINDOWS_PER_FILE, utf8);
    return Err(OverBudget), MAX_WINDOWS_PER_FILE;
  }

  /* ---- The companion ---- */

  /** What was captured under the target's id: the snapshot, the contents of the commits, and the bytes its path had in the
      revision wanted. */
  datatype Source = Source(snapshot: Snapshot, objects: (string, string) -> seq<Byte>, kind: Kind, content: seq<Byte>)

  ghost predicate Captured(target: Target, source: Source) {
    && source.snapshot.repository == target.repository && source.snapshot.generation == target.generation
    && target.path in source.snapshot.allowedPaths
    && match target.revision
       case Worktree =>
         target.path in source.snapshot.worktree &&
         source.snapshot.worktree[target.path] == Identity(source.kind, |source.content|, Digest(source.content))
       case Head => source.content == source.objects(source.snapshot.headSha, target.path)
       case MergeBase => source.content == source.objects(source.snapshot.mergeBaseSha, target.path)
  }

  /** Captures may be evicted and files rewritten, but the id names no other snapshot and commits stay as they are. */
  ghost predicate Bound(target: Target, source: Source, m: Moment) {
    Retained(m.issued, target.captureId) in {None, Some(source.snapshot)} && Immutable(m, source.objects)
  }

  /** The file is as captured, or the object can be printed. */
  ghost predicate Present(target: Target, source: Source, m: Moment) {
    if target.revision.Worktree? then
      HoldsBytes(m.node, source.kind, source.content)
    else
      var sha := if target.revision.Head? then source.snapshot.headSha else source.snapshot.mergeBaseSha;
      var blob := m.blob(sha, target.path);
      blob.Printed? && blob.success && Delivered(blob.fills) && Streamed(blob.fills) == source.content
  }

  /** The capture is retained, the source is there and nobody cancels. */
  ghost predicate Undisturbed(target: Target, source: Source, m: Moment) {
    && Retained(m.issued, target.captureId) == Some(source.snapshot) && m.resolvable
    && Present(target, source, m) && forall k :: !m.cancelled(k)
  }

  /** The companion answers every request with what it serves at that moment. */
  function ReplyTo(target: Target, m: Moment, k: nat, utf8: seq<Byte> -> bool): Reply {
    match Serve(target.At(k * MAX_LINES + 1), m, utf8)
    case Ok(w) => Sent(Echo(target, k * MAX_LINES + 1), w)
    case Err(e) => Refusal(e)
  }

  ghost predicate Honest(target: Target, world: nat -> Moment, replies: nat -> Reply, utf8: seq<Byte> -> bool) {
    forall k :: replies(k) == ReplyTo(target, world(k), k, utf8)
  }

  /** A served window is the window of the captured bytes. */
  lemma ServedIsCaptured(target: Target, source: Source, m: Moment, startLine: nat, utf8: seq<Byte> -> bool)
    requires Captured(target, source) && Bound(target, source, m) && Serve(target.At(startLine), m, utf8).Ok?
    ensures WindowOf(source.content, Query(startLine, MAX_LINES), utf8) == Ok(Serve(target.At(startLine), m, utf8).value)
    ensures Serve(target.At(startLine), m, utf8).value.digest == Digest(source.content)
  {
    WindowMeans(source.content, Query(startLine, MAX_LINES), utf8);
    RevisionWindow(source.snapshot, target.At(startLine), m, utf8, source.objects, source.kind, source.content);
  }

  lemma UndisturbedIsServed(target: Target, source: Source, m: Moment, startLine: nat, utf8: seq<Byte> -> bool)
    requires Captured(target, source) && Undisturbed(target, source, m)
    ensures ReadsAs(WindowOf(source.content, Query(startLine, MAX_LINES), utf8), Serve(target.At(startLine), m, utf8))
  {
    if target.revision.Worktree? {
      UnchangedIsServed(m.node, source.kind, source.content, Query(startLine, MAX_LINES), m.cancelled, utf8);
    } else {
      CommittedIsServed(m.blob(ShaOf(source.snapshot, target.revision), target.path), source.content,
                        Query(startLine, MAX_LINES), m.cancelled, utf8);
    }
  }

  function Tile(content: seq<Byte>, k: nat): seq<Byte> {
    LineRange(content, k * 4096, k * 4096 + 4096)
  }

  predicate TileFits(content: seq<Byte>, k: nat, utf8: seq<Byte> -> bool) {
    |Tile(content, k)| <= 2_097_152 && utf8(Tile(content, k))
  }

  /** The sources the desktop can show: text of at most 64 megabytes, with no NUL, in which every stretch of 4096 lines from
      one that it asks for on is text of at most two megabytes. */
  ghost predicate Readable(content: seq<Byte>, utf8: seq<Byte> -> bool) {
    && 0 !in content && |content| <= 67_108_864 && utf8(content)
    && forall k: nat | k == 0 || k * 4096 < |Lines(content)| :: TileFits(content, k, utf8)
  }

  /** What `k` windows of an undisturbed source come to. */
  ghost predicate Progress(content: seq<Byte>, k: nat, output: seq<Byte>, utf8: seq<Byte> -> bool) {
    && output == LineRange(content, 0, k * MAX_LINES)
    && (k > 0 ==> k * MAX_LINES < |Lines(content)| && |content| <= MAX_SOURCE_BYTES && NUL !in content)
    && forall i: nat | i < k :: TileFits(content, i, utf8)
  }

  predicate IsTile(content: seq<Byte>, k: nat, w: Window) {
    && w.bytes == Tile(content, k) && w.digest == Digest(content) && w.byteLen == |content|
    && w.totalLines == Min(|Lines(content)|, U32_MAX)
    && (w.endOfFile <==> (k + 1) * MAX_LINES >= Min(|Lines(content)|, U32_MAX))
  }

  /** The reply to the k-th request for a source that stays as it is. */
  ghost predicate Shows(target: Target, content: seq<Byte>, reply: Reply, k: nat, utf8: seq<Byte> -> bool) {
    if NUL !in content && TileFits(content, k, utf8)
    then reply.Sent? && reply.echo == Echo(target, k * MAX_LINES + 1) && IsTile(content, k, reply.window)
    else reply in {Refusal(ReadError.Binary), Refusal(ReadError.TooLarge)}
  }

  ghost predicate ShowsAll(target: Target, content: seq<Byte>, replies: nat -> Reply, utf8: seq<Byte> -> bool) {
    forall k: nat {:trigger replies(k)} :: Shows(target, content, replies(k), k, utf8)
  }

  /** The k-th window of an undisturbed source. */
  lemma TileServed(content: seq<Byte>, k: nat, utf8: seq<Byte> -> bool)
    ensures var r := WindowOf(content, Query(k * MAX_LINES + 1, MAX_LINES), utf8);
            && (r.Ok? <==> NUL !in content && TileFits(content, k, utf8))
            && (r.Ok? ==> IsTile(content, k, r.value))
            && (r.Err? ==> r.error in {WindowError.Binary, WindowError.TooLarge})
  {
    WindowMeans(content, Query(k * MAX_LINES + 1, MAX_LINES), utf8);
    assert (k + 1) * MAX_LINES == k * MAX_LINES + MAX_LINES;
  }

  lemma TileExtends(content: seq<Byte>, k: nat)
    ensures LineRange(content, 0, k * MAX_LINES) + Tile(content, k) == LineRange(content, 0, (k + 1) * MAX_LINES)
    ensures |LineRange(content, 0, (k + 1) * MAX_LINES)| <= |content|
    ensures LineRange(content, 0, (k + 1) * MAX_LINES) == content <==> |Lines(content)| <= (k + 1) * MAX_LINES
    ensures (k + 1) * MAX_LINES < |Lines(content)| ==> |LineRange(content, 0, (k + 1) * MAX_LINES)| >= (k + 1) * MAX_LINES
    ensures k * MAX_LINES < |Lines(content)| ==> Tile(content, k) != []
  {
    assert (k + 1) * MAX_LINES == k * MAX_LINES + MAX_LINES;
    RangesConcat(content, 0, k * MAX_LINES, (k + 1) * MAX_LINES);
    WholeRange(content, (k + 1) * MAX_LINES);
    if k * MAX_LINES < |Lines(content)| {
      TileNotEmpty(content, k);
    }
  }

  lemma TileNotEmpty(content: seq<Byte>, k: nat)
    requires k * MAX_LINES < |Lines(content)|
    ensures Tile(content, k) != []
  {
    LinesAreNotEmpty(content);
    var part := Part(Lines(content), k * MAX_LINES, k * MAX_LINES + MAX_LINES);
    assert forall i | 0 <= i < |part| :: part[i] == Lines(content)[k * MAX_LINES + i];
    FlattenLength(part);
  }

  lemma LinesFitBytes(content: seq<Byte>)
    ensures |Lines(content)| <= |content|
  {
    LinesFlatten(content);
    LinesAreNotEmpty(content);
    FlattenLength(Lines(content));
  }

  /** A refused window shows that the source is not readable. */
  lemma RefusedTile(content: seq<Byte>, k: nat, utf8: seq<Byte> -> bool)
    requires k == 0 || k * MAX_LINES < |Lines(content)|
    requires NUL in content || !TileFits(content, k, utf8)
    ensures !Readable(content, utf8)
  {
  }

  lemma NextWindow(content: seq<Byte>, k: nat, output: seq<Byte>, w: Window, utf8: seq<Byte> -> bool)
    requires Progress(content, k, output, utf8) && IsTile(content, k, w) && NUL !in content && TileFits(content, k, utf8)
    requires w.byteLen <= MAX_SOURCE_BYTES && !w.endOfFile
    ensures w.bytes != [] && Progress(content, k + 1, output + w.bytes, utf8)
  {
    TileExtends(content, k);
  }

  lemma AllTilesFit(content: seq<Byte>, k: nat, utf8: seq<Byte> -> bool)
    requires |Lines(content)| <= (k + 1) * MAX_LINES && forall i: nat | i <= k :: TileFits(content, i, utf8)
    requires NUL !in content && |content| <= MAX_SOURCE_BYTES
    ensures Readable(content, utf8) <==> utf8(content)
  {
    forall i: nat | i == 0 || i * MAX_LINES < |Lines(content)| ensures TileFits(content, i, utf8) {
      assert i <= k;
    }
  }

  lemma LastWindow(content: seq<Byte>, k: nat, output: seq<Byte>, w: Window, utf8: seq<Byte> -> bool)
    requires Progress(content, k, output, utf8) && IsTile(content, k, w) && NUL !in content && TileFits(content, k, utf8)
    requires w.byteLen <= MAX_SOURCE_BYTES && w.endOfFile
    ensures output + w.bytes == content && (Readable(content, utf8) <==> utf8(content))
  {
    TileExtends(content, k);
    LinesFitBytes(content);
    assert |Lines(content)| <= (k + 1) * MAX_LINES;
    AllTilesFit(content, k, utf8);
  }

  lemma WindowFits(content: seq<Byte>, k: nat, output: seq<Byte>, w: Window, utf8: seq<Byte> -> bool)
    requires Progress(content, k, output, utf8) && IsTile(content, k, w)
    ensures |output + w.bytes| <= w.byteLen == |content|
  {
    TileExtends(content, k);
  }

  /** The window budget is never what stops an undisturbed read: so many lines would be too many bytes. */
  lemma BudgetSuffices(content: seq<Byte>, output: seq<Byte>, utf8: seq<Byte> -> bool)
    ensures !Progress(content, MAX_WINDOWS_PER_FILE, output, utf8)
  {
    LinesFitBytes(content);
  }

  ghost predicate Steady(target: Target, source: Source, world: nat -> Moment) {
    forall k :: Undisturbed(target, source, world(k))
  }

  lemma SteadyShows(target: Target, source: Source, world: nat -> Moment, replies: nat -> Reply, utf8: seq<Byte> -> bool)
    requires Captured(target, source) && Steady(target, source, world) && Honest(target, world, replies, utf8)
    ensures ShowsAll(target, source.content, replies, utf8)
  {
    forall k: nat ensures Shows(target, source.content, replies(k), k, utf8) {
      assert Undisturbed(target, source, world(k)) && replies(k) == ReplyTo(target, world(k), k, utf8);
      UndisturbedIsServed(target, source, world(k), k * MAX_LINES + 1, utf8);
      TileServed(source.content, k, utf8);
    }
  }

  lemma NextShown(target: Target, content: seq<Byte>, output: seq<Byte>, reply: Reply, k: nat, utf8: seq<Byte> -> bool)
    requires Progress(content, k, output, utf8) && Shows(target, content, reply, k, utf8)
    requires reply.Sent? && reply.window.byteLen <= MAX_SOURCE_BYTES && !reply.window.endOfFile
    ensures reply.window.bytes != [] && Progress(content, k + 1, output + BytesOf(reply), utf8)
  {
    NextWindow(content, k, output, reply.window, utf8);
  }

  lemma GoingOn(target: Target, replies: nat -> Reply, k: nat)
    requires GoesOn(target, replies, k)
    ensures replies(k).Sent? && replies(k).window.byteLen <= MAX_SOURCE_BYTES && !replies(k).window.endOfFile
  {
  }

  /** After windows that all went on, the bytes joined are the first lines of the source. */
  lemma {:induction false} SteadyProgress(target: Target, content: seq<Byte>, replies: nat -> Reply, k: nat,
                                          utf8: seq<Byte> -> bool)
    requires ShowsAll(target, content, replies, utf8) && AllGoOn(target, replies, k)
    ensures Progress(content, k, Joined(replies, k), utf8)
  {
    if k == 0 {
      assert LineRange(content, 0, 0) == [];
    } else {
      SteadyProgress(target, content, replies, k - 1, utf8);
      GoingOn(target, replies, k - 1);
      NextShown(target, content, Joined(replies, k - 1), replies(k - 1), k - 1, utf8);
    }
  }

  /** Windows of one source agree on the whole, so only its size can stop them here. */
  lemma SteadyFits(target: Target, content: seq<Byte>, replies: nat -> Reply, k: nat, utf8: seq<Byte> -> bool)
    requires ShowsAll(target, content, replies, utf8) && Progress(content, k, Joined(replies, k), utf8)
    requires replies(0).Sent? && replies(k).Sent?
    ensures Fits(target, replies, k) <==> |content| <= MAX_SOURCE_BYTES
    ensures |content| > MAX_SOURCE_BYTES ==> Fault(target, replies, k, utf8) == TooBig
  {
    assert Shows(target, content, replies(0), 0, utf8) && Shows(target, content, replies(k), k, utf8);
    WindowFits(content, k, Joined(replies, k), replies(k).window, utf8);
  }

  lemma LastShown(target: Target, content: seq<Byte>, replies: nat -> Reply, k: nat, utf8: seq<Byte> -> bool)
    requires Shows(target, content, replies(k), k, utf8) && Progress(content, k, Joined(replies, k), utf8)
    requires Fits(target, replies, k) && replies(k).window.endOfFile
    ensures Ends(target, replies, k, utf8) <==> Readable(content, utf8)
    ensures !Ends(target, replies, k, utf8) ==> Fault(target, replies, k, utf8) == NotText
  {
    LastWindow(content, k, Joined(replies, k), replies(k).window, utf8);
  }

  /** What one reply of an undisturbed companion means: it goes on, or it ends the source and the source is readable, or it
      stops the loop and the source is not. */
  ghost predicate Decides(target: Target, content: seq<Byte>, replies: nat -> Reply, k: nat, utf8: seq<Byte> -> bool) {
    && (Ends(target, replies, k, utf8) ==> Readable(content, utf8))
    && (!GoesOn(target, replies, k) && !Ends(target, replies, k, utf8) ==>
          !Readable(content, utf8) && Fault(target, replies, k, utf8) in
          {Refused(ReadError.Binary), Refused(ReadError.TooLarge), TooBig, NotText})
  }

  lemma RefusalDecides(target: Target, content: seq<Byte>, replies: nat -> Reply, k: nat, utf8: seq<Byte> -> bool)
    requires Shows(target, content, replies(k), k, utf8) && Progress(content, k, Joined(replies, k), utf8)
    requires !replies(k).Sent?
    ensures Decides(target, content, replies, k, utf8)
  {
    RefusedTile(content, k, utf8);
  }

  lemma WindowDecides(target: Target, content: seq<Byte>, replies: nat -> Reply, k: nat, utf8: seq<Byte> -> bool)
    requires ShowsAll(target, content, replies, utf8) && Progress(content, k, Joined(replies, k), utf8)
    requires replies(0).Sent? && replies(k).Sent?
    ensures Decides(target, content, replies, k, utf8)
  {
    SteadyFits(target, content, replies, k, utf8);
    assert Shows(target, content, replies(k), k, utf8);
    if Fits(target, replies, k) {
      if replies(k).window.endOfFile {
        LastShown(target, content, replies, k, utf8);
      } else {
        NextShown(target, content, Joined(replies, k), replies(k), k, utf8);
      }
    }
  }

  lemma SteadyStep(target: Target, content: seq<Byte>, replies: nat -> Reply, k: nat, utf8: seq<Byte> -> bool)
    requires ShowsAll(target, content, replies, utf8) && AllGoOn(target, replies, k)
    ensures Decides(target, content, replies, k, utf8)
  {
    SteadyProgress(target, content, replies, k, utf8);
    if replies(k).Sent? {
      if k > 0 {
        GoingOn(target, replies, 0);
      }
      WindowDecides(target, content, replies, k, utf8);
    } else {
      assert Shows(target, content, replies(k), k, utf8);
      RefusalDecides(target, content, replies, k, utf8);
    }
  }

  /** What the companion's replies add up to is the captured source, whatever happens between them. */
  lemma AcceptedIsCaptured(target: Target, source: Source, world: nat -> Moment, replies: nat -> Reply, n: nat,
                           utf8: seq<Byte> -> bool)
    requires Captured(target, source) && Honest(target, world, replies, utf8) && Accepts(target, replies, n, utf8)
    requires Bound(target, source, world(n))
    ensures Joined(replies, n + 1) == source.content
  {
    assert replies(n) == ReplyTo(target, world(n), n, utf8);
    ServedIsCaptured(target, source, world(n), n * MAX_LINES + 1, utf8);
  }

  /** How an undisturbed read ends. */
  lemma SteadyEnd(target: Target, content: seq<Byte>, replies: nat -> Reply, n: nat, utf8: seq<Byte> -> bool)
    requires ShowsAll(target, content, replies, utf8) && n <= MAX_WINDOWS_PER_FILE && AllGoOn(target, replies, n)
    ensures n < MAX_WINDOWS_PER_FILE && Decides(target, content, replies, n, utf8)
  {
    SteadyProgress(target, content, replies, n, utf8);
    BudgetSuffices(content, Joined(replies, n), utf8);
    SteadyStep(target, content, replies, n, utf8);
  }

  /** The loop against the companion, which serves the k-th window at `world(k)`. Whatever happens meanwhile, a source that is
      returned is the captured one, in the revision asked for; and an undisturbed read returns it exactly when it is
      readable: the window budget never decides. */
  method ReadFromCompanion(target: Target, world: nat -> Moment, utf8: seq<Byte> -> bool, ghost source: Source)
    returns (r: Result<seq<Byte>, RemoteError>)
    requires Captured(target, source) && forall k :: Bound(target, source, world(k))
    ensures r.Ok? ==> r.value == source.content
    ensures Steady(target, source, world) ==> (r.Ok? <==> Readable(source.content, utf8))
    ensures Steady(target, source, world) && r.Err? ==>
              r.error in {Refused(ReadError.Binary), Refused(ReadError.TooLarge), TooBig, NotText}
  {
    var replies := (k: nat) => ReplyTo(target, world(k), k, utf8);
    var n;
    r, n := ReadRemoteSource(target, replies, utf8);
    if r.Ok? {
      AcceptedIsCaptured(target, source, world, replies, n, utf8);
    }
    if Steady(target, source, world) {
      SteadyShows(target, source, world, replies, utf8);
      SteadyEnd(target, source.content, replies, n, utf8);
    }
  }
}
