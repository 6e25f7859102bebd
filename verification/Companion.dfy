/** Captures kept by the companion and the source windows served from them (crates/cli/src/main.rs), and the desktop's loop
    that puts a source together from windows (src-tauri/src/controller.rs). The environment may rewrite the worktree at any
    moment: what one window reads is whatever the stream delivers. */
module Companion {
  import opened Wrappers
  import opened SourceWindow
  import opened KeyedQueue

  datatype Kind = Regular | Symlink

  /** What a capture keeps of a worktree source. */
  datatype Identity = Identity(kind: Kind, byteLen: nat, digest: Digest)

  function IdentityOf(kind: Kind, content: seq<Byte>): Identity {
    Identity(kind, |content|, Digest(content))
  }

  datatype Snapshot = Snapshot(repository: string, generation: nat, headSha: string, mergeBaseSha: string,
                               allowedPaths: set<string>, worktree: map<string, Identity>)

  /** A hash over these; the clock and the process id are left out, the sequence number already makes it unique. */
  datatype CaptureId = CaptureId(generation: nat, sequence: nat, repository: string)

  const MAX_CAPTURE_SNAPSHOTS := 4

  type Issue = Item<CaptureId, Snapshot>

  /* ---- First in, first out ---- */

  function LastFour(issued: seq<Issue>): seq<Issue> {
    issued[if |issued| < 4 then 0 else |issued| - 4..]
  }

  /** A capture is retained while it is among the last four. */
  function Retained(issued: seq<Issue>, id: CaptureId): Option<Snapshot> {
    Lookup(LastFour(issued), id)
  }

  /** What is left when at most three captures are kept. */
  function Evicted(kept: seq<Issue>): seq<Issue> {
    if |kept| >= MAX_CAPTURE_SNAPSHOTS then kept[|kept| - MAX_CAPTURE_SNAPSHOTS + 1..] else kept
  }

  lemma Shifted(issued: seq<Issue>, issue: Issue)
    ensures LastFour(issued + [issue]) == Evicted(LastFour(issued)) + [issue]
    ensures Absent(issued, issue.key) ==> Absent(Evicted(LastFour(issued)), issue.key)
  {
  }

  class CaptureSnapshots {
    var entries: map<CaptureId, Snapshot>
    var order: seq<CaptureId>
    /** Every capture ever inserted, oldest first. */
    ghost var issued: seq<Issue>

    /** The map and the queue hold exactly the last four captures. */
    ghost predicate Valid()
      reads this
    {
      Holds(entries, order, LastFour(issued))
    }

    constructor ()
      ensures Valid() && issued == []
    {
      entries, order, issued := map[], [], [];
    }

    method Insert(id: CaptureId, snapshot: Snapshot)
      requires Valid() && Absent(issued, id)
      modifies this
      ensures Valid() && issued == old(issued) + [Item(id, snapshot)]
    {
      ghost var kept := LastFour(issued);
      HoldsCount(entries, order, kept);
      while |entries| >= MAX_CAPTURE_SNAPSHOTS
        invariant Holds(entries, order, kept) && |entries| == |order| == |kept|
        invariant Evicted(kept) == Evicted(LastFour(issued)) && issued == old(issued)
        decreases |order|
      {
        var oldest := order[0];
        order := order[1..];
        entries := entries - {oldest};
        kept := kept[1..];
        HoldsCount(entries, order, kept);
      }
      Shifted(issued, Item(id, snapshot));
      HoldsMore(entries, order, kept, Item(id, snapshot));
      order := order + [id];
      entries := entries[id := snapshot];
      issued := issued + [Item(id, snapshot)];
    }

    method Get(id: CaptureId) returns (snapshot: Option<Snapshot>)
      requires Valid()
      ensures snapshot == Retained(issued, id)
    {
      HoldsFound(entries, order, LastFour(issued), id);
      snapshot := if id in entries then Some(entries[id]) else None;
    }
  }

  /* ---- The last four, over a whole run ---- */

  /** A capture is served until four others have been taken after it, and not longer. */
  lemma RetainedExactly(issued: seq<Issue>, k: nat)
    requires Distinct(issued) && k < |issued|
    ensures Retained(issued, issued[k].key) ==
            if k + 4 >= |issued| then Some(issued[k].value) else None
  {
    var first := if |issued| < 4 then 0 else |issued| - 4;
    var kept := LastFour(issued);
    assert forall i | 0 <= i < |kept| :: kept[i] == issued[first + i];
    if k >= first {
      LookupAt(kept, k - first);
    } else {
      LookupAbsent(kept, issued[k].key);
    }
  }

  /** While captures come and go, an id never names another snapshot. */
  lemma RetainedNeverChanges(issued: seq<Issue>, more: seq<Issue>, id: CaptureId)
    requires Distinct(issued + more) && Retained(issued, id).Some? && Retained(issued + more, id).Some?
    ensures Retained(issued + more, id) == Retained(issued, id)
  {
    LookupPresent(LastFour(issued), id);
    LookupPresent(LastFour(issued + more), id);
    var a := Item(id, Retained(issued, id).value);
    var b := Item(id, Retained(issued + more, id).value);
    assert a in issued && b in issued + more;
    var i :| 0 <= i < |issued| && issued[i] == a;
    var j :| 0 <= j < |issued + more| && (issued + more)[j] == b;
    assert (issued + more)[i] == a;
  }

  /* ---- One window of a worktree source ---- */

  /** What a path is at the moment it is read, and what reading it then delivers. */
  datatype Node = Unsafe | Unreadable | Other | RegularFile(fills: seq<Fill>) | Link(target: seq<Fill>)

  datatype ReadError = Cancelled | Stale | NotFound | Binary | TooLarge | Unreadable |
                       StaleCapture | StaleGeneration | PathDenied

  function Streaming(e: WindowError): ReadError {
    match e
    case Cancelled => ReadError.Cancelled
    case TooLarge => ReadError.TooLarge
    case Binary => ReadError.Binary
    case Io => ReadError.Unreadable
  }

  /** Which stream the captured kind lets through. */
  function Opened(node: Node, kind: Kind): Result<seq<Fill>, ReadError> {
    if node.Unsafe? then Err(ReadError.Unreadable)
    else
      match kind
      case Regular =>
        (match node
         case Unreadable => Err(ReadError.Unreadable)
         case RegularFile(fills) => Ok(fills)
         case _ => Err(Stale))
      case Symlink => if node.Link? then Ok(node.target) else Err(Stale)
  }

  function ReadWorktree(node: Node, identity: Identity, q: Query, cancelled: nat -> bool, utf8: seq<Byte> -> bool)
    : Result<Window, ReadError>
  {
    match Opened(node, identity.kind)
    case Err(e) => Err(e)
    case Ok(fills) =>
      match Outcome(fills, q, cancelled, utf8, [], 0)
      case Err(e) => Err(Streaming(e))
      case Ok(w) => if w.byteLen == identity.byteLen && w.digest == identity.digest then Ok(w) else Err(Stale)
  }

  method ReadWorktreeSourceWindow(node: Node, identity: Identity, q: Query, cancelled: nat -> bool, utf8: seq<Byte> -> bool)
    returns (r: Result<Window, ReadError>)
    ensures r == ReadWorktree(node, identity, q, cancelled, utf8)
  {
    var stream := Opened(node, identity.kind);
    if stream.Err? {
      return Err(stream.error);
    }
    var window := StreamSourceWindow(stream.value, q, cancelled, utf8);
    if window.Err? {
      return Err(Streaming(window.error));
    }
    if window.value.byteLen != identity.byteLen || window.value.digest != identity.digest {
      return Err(Stale);
    }
    return Ok(window.value);
  }

  /** Whatever the file holds by now, a served window is the window of the bytes present at capture. */
  lemma WindowIsOfCapturedBytes(node: Node, kind: Kind, captured: seq<Byte>, q: Query, cancelled: nat -> bool,
      utf8: seq<Byte> -> bool)
    requires ReadWorktree(node, IdentityOf(kind, captured), q, cancelled, utf8).Ok?
    ensures WindowOf(captured, q, utf8) == Ok(ReadWorktree(node, IdentityOf(kind, captured), q, cancelled, utf8).value)
  {
    var fills := Opened(node, kind).value;
    FinishedStream(fills, q, cancelled, utf8, [], 0);
    assert [] + Streamed(fills) == Streamed(fills);
  }

  /** The path is still of the captured kind and holds these bytes, to the end. */
  predicate HoldsBytes(node: Node, kind: Kind, content: seq<Byte>) {
    match kind
    case Regular => node.RegularFile? && Delivered(node.fills) && Streamed(node.fills) == content
    case Symlink => node.Link? && Delivered(node.target) && Streamed(node.target) == content
  }

  /** A window, or the same fault as a reading error. */
  predicate ReadsAs(window: Result<Window, WindowError>, read: Result<Window, ReadError>) {
    match window
    case Ok(w) => read == Ok(w)
    case Err(Cancelled) => read == Err(ReadError.Cancelled)
    case Err(TooLarge) => read == Err(ReadError.TooLarge)
    case Err(Binary) => read == Err(ReadError.Binary)
    case Err(Io) => read == Err(ReadError.Unreadable)
  }

  /** What is not of the captured kind is refused before anything is read; what is, is read, and a fault on the way is
      reported whatever the file was at capture. */
  lemma NodeDecides(node: Node, identity: Identity, q: Query, cancelled: nat -> bool, utf8: seq<Byte> -> bool)
    ensures var read := ReadWorktree(node, identity, q, cancelled, utf8);
            match identity.kind
            case Regular =>
              (match node
               case Unsafe => read == Err(ReadError.Unreadable)
               case Unreadable => read == Err(ReadError.Unreadable)
               case RegularFile(fills) => ReadFrom(fills, identity, q, cancelled, utf8, read)
               case Other => read == Err(Stale)
               case Link(_) => read == Err(Stale))
            case Symlink =>
              match node
              case Unsafe => read == Err(ReadError.Unreadable)
              case Unreadable => read == Err(Stale)
              case RegularFile(_) => read == Err(Stale)
              case Other => read == Err(Stale)
              case Link(fills) => ReadFrom(fills, identity, q, cancelled, utf8, read)
  {
  }

  predicate ReadFrom(fills: seq<Fill>, identity: Identity, q: Query, cancelled: nat -> bool, utf8: seq<Byte> -> bool,
                     read: Result<Window, ReadError>)
  {
    var streamed := Outcome(fills, q, cancelled, utf8, [], 0);
    if streamed.Ok? && (streamed.value.byteLen != identity.byteLen || streamed.value.digest != identity.digest)
    then read == Err(Stale)
    else ReadsAs(streamed, read)
  }

  /** An unchanged file gives the window of the captured bytes, or the error those bytes call for. */
  lemma UnchangedIsServed(node: Node, kind: Kind, captured: seq<Byte>, q: Query, cancelled: nat -> bool,
      utf8: seq<Byte> -> bool)
    requires HoldsBytes(node, kind, captured) && forall k :: !cancelled(k)
    ensures ReadsAs(WindowOf(captured, q, utf8),
                    ReadWorktree(node, Identity(kind, |captured|, Digest(captured)), q, cancelled, utf8))
  {
    var fills := if kind.Regular? then node.fills else node.target;
    ChunksDoNotMatter(fills, q, cancelled, utf8, [], 0);
    assert [] + Streamed(fills) == captured;
    WindowMeans(captured, q, utf8);
  }

  /* ---- One window of a committed source ---- */

  /** A Git object as it is asked for: `git cat-file` may not find it, and it may fail half way through. */
  datatype Blob = NoObject | Unrunnable | Printed(fills: seq<Fill>, success: bool)

  function ReadCommitted(blob: Blob, q: Query, cancelled: nat -> bool, utf8: seq<Byte> -> bool): Result<Window, ReadError> {
    match blob
    case NoObject => Err(NotFound)
    case Unrunnable => Err(ReadError.Unreadable)
    case Printed(fills, success) =>
      match Outcome(fills, q, cancelled, utf8, [], 0)
      case Err(e) => Err(Streaming(e))
      case Ok(w) => if success then Ok(w) else Err(ReadError.Unreadable)
  }

  method ReadGitSourceWindow(blob: Blob, q: Query, cancelled: nat -> bool, utf8: seq<Byte> -> bool)
    returns (r: Result<Window, ReadError>)
    ensures r == ReadCommitted(blob, q, cancelled, utf8)
  {
    if blob.NoObject? {
      return Err(NotFound);
    }
    if blob.Unrunnable? {
      return Err(ReadError.Unreadable);
    }
    var window := StreamSourceWindow(blob.fills, q, cancelled, utf8);
    if window.Err? {
      return Err(Streaming(window.error));
    }
    if !blob.success {
      return Err(ReadError.Unreadable);
    }
    return Ok(window.value);
  }

  /** Git prints an object's content and no other; a command that succeeds has printed all of it. */
  predicate Prints(blob: Blob, content: seq<Byte>) {
    blob.Printed? && blob.success ==> Streamed(blob.fills) == content
  }

  lemma CommittedWindow(blob: Blob, content: seq<Byte>, q: Query, cancelled: nat -> bool, utf8: seq<Byte> -> bool)
    requires Prints(blob, content) && ReadCommitted(blob, q, cancelled, utf8).Ok?
    ensures WindowOf(content, q, utf8) == Ok(ReadCommitted(blob, q, cancelled, utf8).value)
  {
    FinishedStream(blob.fills, q, cancelled, utf8, [], 0);
    assert [] + Streamed(blob.fills) == Streamed(blob.fills);
  }

  lemma CommittedIsServed(blob: Blob, content: seq<Byte>, q: Query, cancelled: nat -> bool, utf8: seq<Byte> -> bool)
    requires Prints(blob, content) && blob.Printed? && blob.success && Delivered(blob.fills) && forall k :: !cancelled(k)
    ensures ReadsAs(WindowOf(content, q, utf8), ReadCommitted(blob, q, cancelled, utf8))
  {
    ChunksDoNotMatter(blob.fills, q, cancelled, utf8, [], 0);
    assert [] + Streamed(blob.fills) == content;
  }

  /* ---- Serving a request ---- */

  datatype Revision = Worktree | Head | MergeBase

  datatype Request = Request(generation: nat, captureId: CaptureId, captureGeneration: nat, repository: string, path: string,
                             revision: Revision, query: Query)

  /** What one request meets: the captures so far, the repository, the file, the objects and the cancel flag. */
  datatype Moment = Moment(issued: seq<Issue>, resolvable: bool, node: Node, blob: (string, string) -> Blob,
                           cancelled: nat -> bool)

  function ShaOf(snapshot: Snapshot, revision: Revision): string {
    if revision.Head? then snapshot.headSha else snapshot.mergeBaseSha
  }

  function ServeRevision(snapshot: Snapshot, request: Request, m: Moment, utf8: seq<Byte> -> bool)
    : Result<Window, ReadError>
  {
    if !request.revision.Worktree? then
      ReadCommitted(m.blob(ShaOf(snapshot, request.revision), request.path), request.query, m.cancelled, utf8)
    else if request.path !in snapshot.worktree then Err(NotFound)
    else ReadWorktree(m.node, snapshot.worktree[request.path], request.query, m.cancelled, utf8)
  }

  /** The bytes a revision of a path had when it was captured; `objects` are the contents of the commits. */
  ghost predicate HadBytes(snapshot: Snapshot, revision: Revision, path: string, objects: (string, string) -> seq<Byte>,
                           kind: Kind, content: seq<Byte>)
  {
    match revision
    case Worktree => path in snapshot.worktree && snapshot.worktree[path] == IdentityOf(kind, content)
    case Head => content == objects(snapshot.headSha, path)
    case MergeBase => content == objects(snapshot.mergeBaseSha, path)
  }

  ghost predicate Immutable(m: Moment, objects: (string, string) -> seq<Byte>) {
    forall sha, path :: Prints(m.blob(sha, path), objects(sha, path))
  }

  function Serve(request: Request, m: Moment, utf8: seq<Byte> -> bool): Result<Window, ReadError> {
    match Retained(m.issued, request.captureId)
    case None => Err(StaleCapture)
    case Some(snapshot) =>
      if snapshot.repository != request.repository then Err(StaleCapture)
      else if snapshot.generation != request.captureGeneration || request.generation != request.captureGeneration
      then Err(StaleGeneration)
      else if request.path !in snapshot.allowedPaths then Err(PathDenied)
      else if !m.resolvable then Err(PathDenied)
      else ServeRevision(snapshot, request, m, utf8)
  }

  /** A served window of any revision is a window of the bytes that revision had at capture. */
  lemma RevisionWindow(snapshot: Snapshot, request: Request, m: Moment, utf8: seq<Byte> -> bool,
                       objects: (string, string) -> seq<Byte>, kind: Kind, content: seq<Byte>)
    requires HadBytes(snapshot, request.revision, request.path, objects, kind, content) && Immutable(m, objects)
    requires ServeRevision(snapshot, request, m, utf8).Ok?
    ensures WindowOf(content, request.query, utf8) == Ok(ServeRevision(snapshot, request, m, utf8).value)
  {
    if request.revision.Worktree? {
      WindowIsOfCapturedBytes(m.node, kind, content, request.query, m.cancelled, utf8);
    } else {
      CommittedWindow(m.blob(ShaOf(snapshot, request.revision), request.path), content, request.query, m.cancelled, utf8);
    }
  }

  /** Every window served for a capture is a window of the bytes its path had, in the revision asked for, at capture,
      whenever it is asked for; and it is served only while the capture is retained, to its own repository and generation,
      for a path of the comparison. */
  lemma ServedWindow(request: Request, m: Moment, utf8: seq<Byte> -> bool, k: nat, objects: (string, string) -> seq<Byte>,
                     kind: Kind, content: seq<Byte>)
    requires Distinct(m.issued) && k < |m.issued| && m.issued[k].key == request.captureId
    requires Immutable(m, objects) && Serve(request, m, utf8).Ok?
    requires var worktree := m.issued[k].value.worktree;
             request.path in worktree ==> worktree[request.path] == Identity(kind, |content|, Digest(content))
    ensures var snapshot, w := m.issued[k].value, Serve(request, m, utf8).value;
            match request.revision
            case Worktree => WindowOf(content, request.query, utf8) == Ok(w)
            case Head => WindowOf(objects(snapshot.headSha, request.path), request.query, utf8) == Ok(w)
            case MergeBase => WindowOf(objects(snapshot.mergeBaseSha, request.path), request.query, utf8) == Ok(w)
    ensures k + 4 >= |m.issued|
    ensures m.issued[k].value.repository == request.repository && request.path in m.issued[k].value.allowedPaths
    ensures m.issued[k].value.generation == request.generation == request.captureGeneration
  {
    RetainedExactly(m.issued, k);
    var snapshot := m.issued[k].value;
    var had :=
      match request.revision
      case Worktree => content
      case Head => objects(snapshot.headSha, request.path)
      case MergeBase => objects(snapshot.mergeBaseSha, request.path);
    RevisionWindow(snapshot, request, m, utf8, objects, kind, had);
  }

  /** The capture asked for is still kept, and it is one of this repository. */
  predicate IsKept(request: Request, m: Moment, k: nat) {
    && k < |m.issued| && m.issued[k].key == request.captureId && k + 4 >= |m.issued|
    && m.issued[k].value.repository == request.repository
  }

  /** What a request is answered, the first reason for an error first: no such capture kept, another generation, a path that
      is not one of the comparison or a repository that is gone; and then what the revision asked for gives. */
  lemma RequestDecides(request: Request, m: Moment, utf8: seq<Byte> -> bool)
    requires Distinct(m.issued)
    ensures (forall k: nat :: !IsKept(request, m, k)) ==> Serve(request, m, utf8) == Err(StaleCapture)
    ensures forall k: nat | IsKept(request, m, k) ::
              var snapshot := m.issued[k].value;
              Serve(request, m, utf8) ==
              if !(snapshot.generation == request.captureGeneration == request.generation) then Err(StaleGeneration)
              else if request.path !in snapshot.allowedPaths || !m.resolvable then Err(PathDenied)
              else
                match request.revision
                case Head => ReadCommitted(m.blob(snapshot.headSha, request.path), request.query, m.cancelled, utf8)
                case MergeBase => ReadCommitted(m.blob(snapshot.mergeBaseSha, request.path), request.query, m.cancelled, utf8)
                case Worktree =>
                  if request.path !in snapshot.worktree then Err(NotFound)
                  else ReadWorktree(m.node, snapshot.worktree[request.path], request.query, m.cancelled, utf8)
  {
    forall k: nat | IsKept(request, m, k) ensures Retained(m.issued, request.captureId) == Some(m.issued[k].value) {
      RetainedExactly(m.issued, k);
    }
    if Retained(m.issued, request.captureId).Some? {
      LookupPresent(LastFour(m.issued), request.captureId);
      var item := Item(request.captureId, Retained(m.issued, request.captureId).value);
      var k :| 0 <= k < |m.issued| && m.issued[k] == item;
      RetainedExactly(m.issued, k);
      assert item.value.repository == request.repository ==> IsKept(request, m, k);
    }
  }

  predicate Unused(issued: seq<Issue>, sequence: nat) {
    forall k | 0 <= k < |issued| :: issued[k].key.sequence != sequence
  }

  class AgentServer {
    const snapshots: CaptureSnapshots
    var captureSequence: nat
    /** Numbers drawn by workers that have not inserted their capture yet. */
    var drawn: set<nat>

    ghost predicate Valid()
      reads this, snapshots
    {
      && snapshots.Valid()
      && Distinct(snapshots.issued)
      && (forall k | 0 <= k < |snapshots.issued| :: snapshots.issued[k].key.sequence < captureSequence)
      && (forall n | n in drawn :: n < captureSequence && Unused(snapshots.issued, n))
    }

    constructor ()
      ensures Valid() && fresh(snapshots) && snapshots.issued == []
    {
      snapshots := new CaptureSnapshots();
      captureSequence := 1;
      drawn := {};
    }

    /** A worker draws a number nobody has drawn. */
    method Draw() returns (sequence: nat)
      requires Valid()
      modifies this
      ensures Valid() && sequence !in old(drawn) && drawn == old(drawn) + {sequence}
    {
      sequence := captureSequence;
      captureSequence := captureSequence + 1;
      drawn := drawn + {sequence};
    }

    /** And inserts its capture, under the lock of the list. */
    method Finish(sequence: nat, generation: nat, snapshot: Snapshot) returns (id: CaptureId)
      requires Valid() && sequence in drawn
      modifies this`drawn, snapshots
      ensures Valid() && drawn == old(drawn) - {sequence} && id == CaptureId(generation, sequence, snapshot.repository)
      ensures snapshots.issued == old(snapshots.issued) + [Item(id, snapshot)] && Absent(old(snapshots.issued), id)
    {
      id := CaptureId(generation, sequence, snapshot.repository);
      drawn := drawn - {sequence};
      snapshots.Insert(id, snapshot);
    }

    /** Other workers draw numbers and insert captures; a number drawn by this one stays its own. */
    method OthersRegister(mine: nat)
      requires Valid() && mine in drawn
      modifies this, snapshots
      ensures Valid() && mine in drawn && old(snapshots.issued) <= snapshots.issued
    {
      var rounds: nat :| true;
      for i := 0 to rounds
        invariant Valid() && mine in drawn && old(snapshots.issued) <= snapshots.issued
      {
        var draws: bool, snapshot: Snapshot := *, *;
        var generation: nat :| true;
        if draws {
          var _ := Draw();
        } else if drawn - {mine} != {} {
          var sequence :| sequence in drawn - {mine};
          var _ := Finish(sequence, generation, snapshot);
        }
      }
    }

    /** Registers a finished capture under an id that was never used before. Other workers can insert theirs between the
        drawing of its number and its own insertion. */
    method Register(generation: nat, snapshot: Snapshot) returns (id: CaptureId, ghost before: seq<Issue>)
      requires Valid()
      modifies this, snapshots
      ensures Valid() && old(snapshots.issued) <= before && snapshots.issued == before + [Item(id, snapshot)]
      ensures Absent(before, id) && id.generation == generation && id.repository == snapshot.repository
    {
      var sequence := Draw();
      OthersRegister(sequence);
      before := snapshots.issued;
      id := Finish(sequence, generation, snapshot);
    }

    method ReadSourceWindow(request: Request, resolvable: bool, node: Node, blob: (string, string) -> Blob,
                            cancelled: nat -> bool, utf8: seq<Byte> -> bool)
      returns (r: Result<Window, ReadError>)
      requires Valid()
      ensures r == Serve(request, Moment(snapshots.issued, resolvable, node, blob, cancelled), utf8)
    {
      var found := snapshots.Get(request.captureId);
      if found.None? {
        return Err(StaleCapture);
      }
      var snapshot := found.value;
      if snapshot.repository != request.repository {
        return Err(StaleCapture);
      }
      if snapshot.generation != request.captureGeneration || request.generation != request.captureGeneration {
        return Err(StaleGeneration);
      }
      if request.path !in snapshot.allowedPaths {
        return Err(PathDenied);
      }
      if !resolvable {
        return Err(PathDenied);
      }
      if !request.revision.Worktree? {
        var printed := blob(ShaOf(snapshot, request.revision), request.path);
        r := ReadGitSourceWindow(printed, request.query, cancelled, utf8);
        return;
      }
      if request.path !in snapshot.worktree {
        return Err(NotFound);
      }
      r := ReadWorktreeSourceWindow(node, snapshot.worktree[request.path], request.query, cancelled, utf8);
    }
  }
}
