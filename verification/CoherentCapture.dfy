/** Capturing a mutable worktree by reading it twice (crates/git/src/lib.rs). The repository is a history: `env(k)` is
    its state at the k-th read of a run, so the environment may write anything between two reads. */
module CoherentCapture {
  import opened Wrappers

  /* ---- The repository, as the capture observes it ---- */

  datatype StatusEntry = StatusEntry(untracked: bool, path: string)

  datatype ManifestEntry = ManifestEntry(path: string, oldPath: Option<string>, deleted: bool, gitlink: bool)

  datatype FileState = Missing | Irregular | Regular(content: string)

  datatype RepoState = RepoState(head: string, status: seq<StatusEntry>, committed: string, staged: string,
                                 unstaged: string, aggregate: string, manifest: seq<ManifestEntry>,
                                 files: map<string, FileState>)

  function FileAt(s: RepoState, path: string): FileState {
    if path in s.files then s.files[path] else Missing
  }

  type History = nat -> RepoState

  /** One thing a single read observes. */
  datatype Component = Head | Status | Committed | Staged | Unstaged | Aggregate | Manifest | File(path: string)

  datatype Value = Text(text: string) | Entries(entries: seq<StatusEntry>) | Listing(files: seq<ManifestEntry>) |
                   Content(file: FileState)

  function Observe(s: RepoState, c: Component): Value {
    match c
    case Head => Text(s.head)
    case Status => Entries(s.status)
    case Committed => Text(s.committed)
    case Staged => Text(s.staged)
    case Unstaged => Text(s.unstaged)
    case Aggregate => Text(s.aggregate)
    case Manifest => Listing(s.manifest)
    case File(path) => Content(FileAt(s, path))
  }

  predicate Stays(env: History, c: Component, i: nat, j: nat, k: nat) {
    i <= j <= k && Observe(env(i), c) == Observe(env(k), c) ==> Observe(env(j), c) == Observe(env(i), c)
  }

  datatype GitError = UnreadableFile(path: string) | ConcurrentModification(attempts: nat)

  datatype TrackedFile = TrackedFile(entry: ManifestEntry, content: Option<string>)

  datatype UntrackedFile = UntrackedFile(path: string, content: string)

  datatype Captured = Captured(status: seq<StatusEntry>, untracked: seq<UntrackedFile>, committed: string,
                               staged: string, unstaged: string, aggregate: string, tracked: seq<TrackedFile>)

  const MAX_ATTEMPTS := 3

  /* ---- Reading ---- */

  function Untracked(status: seq<StatusEntry>): seq<string> {
    if status == [] then []
    else (if status[0].untracked then [status[0].path] else []) + Untracked(status[1..])
  }

  /** An untracked path must be a regular file. */
  function UntrackedContent(path: string, file: FileState): Result<UntrackedFile, GitError> {
    match file
    case Regular(content) => Ok(UntrackedFile(path, content))
    case _ => Err(UnreadableFile(path))
  }

  /** A tracked path may be gone; deletions and gitlinks are never read from the worktree. */
  function TrackedContent(entry: ManifestEntry, file: FileState): Result<TrackedFile, GitError> {
    match file
    case Regular(content) => Ok(TrackedFile(entry, Some(content)))
    case Missing => Ok(TrackedFile(entry, None))
    case Irregular => Err(UnreadableFile(entry.path))
  }

  predicate NeedsRead(entry: ManifestEntry) {
    !entry.gitlink && !entry.deleted
  }

  /** The untracked files from the k-th read on, and the number of the next read. */
  function ReadUntracked(env: History, k: nat, paths: seq<string>): (Result<seq<UntrackedFile>, GitError>, nat)
    decreases |paths|
  {
    if paths == [] then (Ok([]), k)
    else
      match UntrackedContent(paths[0], FileAt(env(k), paths[0]))
      case Err(e) => (Err(e), k + 1)
      case Ok(file) =>
        var (rest, next) := ReadUntracked(env, k + 1, paths[1..]);
        (Extended([file], rest), next)
  }

  function FileRead(env: History, k: nat, entry: ManifestEntry): Result<TrackedFile, GitError> {
    if NeedsRead(entry) then TrackedContent(entry, FileAt(env(k), entry.path)) else Ok(TrackedFile(entry, None))
  }

  function ReadTracked(env: History, k: nat, entries: seq<ManifestEntry>): (Result<seq<TrackedFile>, GitError>, nat)
    decreases |entries|
  {
    if entries == [] then (Ok([]), k)
    else
      var read := NeedsRead(entries[0]);
      match FileRead(env, k, entries[0])
      case Err(e) => (Err(e), k + 1)
      case Ok(file) =>
        var (rest, next) := ReadTracked(env, if read then k + 1 else k, entries[1..]);
        (Extended([file], rest), next)
  }

  /** The four patches, the manifest and the tracked files. */
  function CollectLater(env: History, u: nat, status: seq<StatusEntry>, untracked: seq<UntrackedFile>)
    : (Result<Captured, GitError>, nat)
  {
    var (tracked, t) := ReadTracked(env, u + 5, env(u + 4).manifest);
    if tracked.Err? then (Err(tracked.error), t)
    else (Ok(Captured(status, untracked, env(u).committed, env(u + 1).staged, env(u + 2).unstaged,
                      env(u + 3).aggregate, tracked.value)), t)
  }

  function CollectFiles(env: History, k: nat, status: seq<StatusEntry>): (Result<Captured, GitError>, nat) {
    var (untracked, u) := ReadUntracked(env, k, Untracked(status));
    if untracked.Err? then (Err(untracked.error), u) else CollectLater(env, u, status, untracked.value)
  }

  /** Everything but the head, in the order one capture reads it. */
  function Collect(env: History, k: nat): (Result<Captured, GitError>, nat) {
    CollectFiles(env, k + 1, env(k).status)
  }

  /** The four patches, the manifest and the tracked files, read again. */
  function RecheckLater(env: History, u: nat, captured: Captured): (Result<bool, GitError>, nat) {
    if env(u).committed != captured.committed || env(u + 1).staged != captured.staged ||
       env(u + 2).unstaged != captured.unstaged || env(u + 3).aggregate != captured.aggregate
    then (Ok(false), u + 4)
    else
      var (tracked, t) := ReadTracked(env, u + 5, env(u + 4).manifest);
      if tracked.Err? then (Err(tracked.error), t) else (Ok(tracked.value == captured.tracked), t)
  }

  function RecheckFiles(env: History, k: nat, captured: Captured): (Result<bool, GitError>, nat) {
    var (untracked, u) := ReadUntracked(env, k, Untracked(captured.status));
    if untracked.Err? then (Err(untracked.error), u)
    else if untracked.value != captured.untracked then (Ok(false), u)
    else RecheckLater(env, u, captured)
  }

  /** Reads everything again and stops at the first difference. */
  function Recheck(env: History, k: nat, head: string, captured: Captured): (Result<bool, GitError>, nat) {
    if env(k).head != head then (Ok(false), k + 1)
    else if env(k + 1).status != captured.status then (Ok(false), k + 2)
    else RecheckFiles(env, k + 2, captured)
  }

  function Constant(s: RepoState): History {
    _ => s
  }

  /** What a capture sees when nothing changes: everything read from one state. */
  function Snapshot(s: RepoState): Result<Captured, GitError> {
    Collect(Constant(s), 0).0
  }

  /* ---- The reading loops ---- */

  method CaptureUntracked(env: History, start: nat, status: seq<StatusEntry>)
    returns (r: Result<seq<UntrackedFile>, GitError>, k: nat)
    ensures (r, k) == ReadUntracked(env, start, Untracked(status))
  {
    var files: seq<UntrackedFile> := [];
    var paths := Untracked(status);
    k := start;
    assert paths[0..] == paths;
    ExtendedMore([], UntrackedFile("", ""), ReadUntracked(env, k, paths).0);
    for i := 0 to |paths|
      invariant ReadUntracked(env, start, paths) ==
                var (rest, next) := ReadUntracked(env, k, paths[i..]); (Extended(files, rest), next)
    {
      assert paths[i..][1..] == paths[i + 1..];
      var file := UntrackedContent(paths[i], FileAt(env(k), paths[i]));
      k := k + 1;
      if file.Err? {
        return Err(file.error), k;
      }
      ExtendedMore(files, file.value, ReadUntracked(env, k, paths[i + 1..]).0);
      files := files + [file.value];
    }
    ExtendedNone<UntrackedFile, GitError>(files);
    r := Ok(files);
  }

  method CaptureTracked(env: History, start: nat, entries: seq<ManifestEntry>)
    returns (r: Result<seq<TrackedFile>, GitError>, k: nat)
    ensures (r, k) == ReadTracked(env, start, entries)
  {
    var files: seq<TrackedFile> := [];
    k := start;
    assert entries[0..] == entries;
    ghost var none := TrackedFile(ManifestEntry("", None, false, false), None);
    ExtendedMore([], none, ReadTracked(env, k, entries).0);
    for i := 0 to |entries|
      invariant ReadTracked(env, start, entries) ==
                var (rest, next) := ReadTracked(env, k, entries[i..]); (Extended(files, rest), next)
    {
      assert entries[i..][1..] == entries[i + 1..];
      var file := TrackedFile(entries[i], None);
      if NeedsRead(entries[i]) {
        var read := TrackedContent(entries[i], FileAt(env(k), entries[i].path));
        k := k + 1;
        if read.Err? {
          return Err(read.error), k;
        }
        file := read.value;
      }
      ExtendedMore(files, file, ReadTracked(env, k, entries[i + 1..]).0);
      files := files + [file];
    }
    ExtendedNone<TrackedFile, GitError>(files);
    r := Ok(files);
  }

  method CaptureOnce(env: History, start: nat) returns (r: Result<Captured, GitError>, k: nat)
    ensures (r, k) == Collect(env, start)
  {
    var status := env(start).status;
    var untracked, u := CaptureUntracked(env, start + 1, status);
    if untracked.Err? {
      return Err(untracked.error), u;
    }
    assert Collect(env, start) == CollectLater(env, u, status, untracked.value);
    var committed, staged, unstaged, aggregate := env(u).committed, env(u + 1).staged, env(u + 2).unstaged,
        env(u + 3).aggregate;
    var tracked, t := CaptureTracked(env, u + 5, env(u + 4).manifest);
    if tracked.Err? {
      return Err(tracked.error), t;
    }
    return Ok(Captured(status, untracked.value, committed, staged, unstaged, aggregate, tracked.value)), t;
  }

  method StillCurrent(env: History, start: nat, head: string, captured: Captured)
    returns (r: Result<bool, GitError>, k: nat)
    ensures (r, k) == Recheck(env, start, head, captured)
  {
    if env(start).head != head {
      return Ok(false), start + 1;
    }
    var status := env(start + 1).status;
    if status != captured.status {
      return Ok(false), start + 2;
    }
    assert Recheck(env, start, head, captured) == RecheckFiles(env, start + 2, captured);
    var untracked, u := CaptureUntracked(env, start + 2, status);
    if untracked.Err? {
      return Err(untracked.error), u;
    }
    if untracked.value != captured.untracked {
      return Ok(false), u;
    }
    assert RecheckFiles(env, start + 2, captured) == RecheckLater(env, u, captured);
    var committed, staged, unstaged, aggregate := env(u).committed, env(u + 1).staged, env(u + 2).unstaged,
        env(u + 3).aggregate;
    if committed != captured.committed || staged != captured.staged || unstaged != captured.unstaged ||
       aggregate != captured.aggregate {
      return Ok(false), u + 4;
    }
    var tracked, t := CaptureTracked(env, u + 5, env(u + 4).manifest);
    if tracked.Err? {
      return Err(tracked.error), t;
    }
    return Ok(tracked.value == captured.tracked), t;
  }

  /** The state at read `t` is the one the capture describes. */
  predicate Describes(env: History, t: nat, head: string, captured: Captured) {
    env(t).head == head && Snapshot(env(t)) == Ok(captured)
  }

  /** An attempt that collected a candidate, saw it contradicted and ended before read `end`. */
  predicate Contradicted(env: History, start: nat, head: string, end: nat) {
    var (collected, m) := Collect(env, start);
    collected.Ok? && Recheck(env, m, head, collected.value) == (Ok(false), end)
  }

  /** An attempt that met a file it could not read, while collecting or while rechecking, and stopped there. */
  predicate Unreadable(env: History, start: nat, head: string, error: GitError, end: nat) {
    var (collected, m) := Collect(env, start);
    if collected.Err? then error == collected.error && end == m
    else Recheck(env, m, head, collected.value) == (Err(error), end)
  }

  /* ---- What a capture says about a state ---- */

  /** The content kept for one manifest entry: none for a gitlink, a deletion or a missing file. */
  predicate KeepsContent(s: RepoState, entry: ManifestEntry, content: Option<string>) {
    if entry.gitlink || entry.deleted then content == None
    else if entry.path in s.files then
      match s.files[entry.path]
      case Regular(text) => content == Some(text)
      case Missing => content == None
      case Irregular => false
    else content == None
  }

  /** The untracked entries of the status, in order, each a regular file with its content. */
  predicate KeepsUntracked(s: RepoState, status: seq<StatusEntry>, files: seq<UntrackedFile>) {
    if status == [] then files == []
    else if !status[0].untracked then KeepsUntracked(s, status[1..], files)
    else
      && files != [] && files[0].path == status[0].path && status[0].path in s.files
      && s.files[status[0].path] == Regular(files[0].content) && KeepsUntracked(s, status[1..], files[1..])
  }

  /** A capture of this state: its head, its status, its four patches, one file for every manifest entry and one for every
      untracked entry. */
  ghost predicate Portrays(s: RepoState, head: string, captured: Captured) {
    && s.head == head && captured.status == s.status && captured.committed == s.committed && captured.staged == s.staged
    && captured.unstaged == s.unstaged && captured.aggregate == s.aggregate && |captured.tracked| == |s.manifest|
    && (forall i | 0 <= i < |s.manifest| ::
          captured.tracked[i].entry == s.manifest[i] && KeepsContent(s, s.manifest[i], captured.tracked[i].content))
    && KeepsUntracked(s, s.status, captured.untracked)
  }

  lemma {:induction false} UntrackedOfState(s: RepoState, k: nat, status: seq<StatusEntry>, files: seq<UntrackedFile>)
    ensures ReadUntracked(Constant(s), k, Untracked(status)).0 == Ok(files) <==> KeepsUntracked(s, status, files)
    decreases |status|
  {
    if status != [] {
      var rest := Untracked(status[1..]);
      if status[0].untracked {
        assert Untracked(status) == [status[0].path] + rest && ([status[0].path] + rest)[1..] == rest;
        if files != [] {
          UntrackedOfState(s, k + 1, status[1..], files[1..]);
          assert files == [files[0]] + files[1..];
        }
        var read := ReadUntracked(Constant(s), k + 1, rest).0;
        if read.Ok? {
          UntrackedOfState(s, k + 1, status[1..], read.value);
        }
      } else {
        assert Untracked(status) == [] + rest == rest;
        UntrackedOfState(s, k, status[1..], files);
      }
    }
  }

  predicate KeepsTracked(s: RepoState, entries: seq<ManifestEntry>, files: seq<TrackedFile>) {
    if entries == [] then files == []
    else
      files != [] && files[0].entry == entries[0] && KeepsContent(s, entries[0], files[0].content) &&
      KeepsTracked(s, entries[1..], files[1..])
  }

  lemma {:induction false} TrackedOfState(s: RepoState, k: nat, entries: seq<ManifestEntry>, files: seq<TrackedFile>)
    ensures ReadTracked(Constant(s), k, entries).0 == Ok(files) <==> KeepsTracked(s, entries, files)
    decreases |entries|
  {
    if entries != [] {
      var next := if NeedsRead(entries[0]) then k + 1 else k;
      if files != [] {
        TrackedOfState(s, next, entries[1..], files[1..]);
        assert files == [files[0]] + files[1..];
      }
      var read := ReadTracked(Constant(s), next, entries[1..]).0;
      if read.Ok? {
        TrackedOfState(s, next, entries[1..], read.value);
      }
    }
  }

  lemma {:induction false} KeptOneByOne(s: RepoState, entries: seq<ManifestEntry>, files: seq<TrackedFile>)
    ensures KeepsTracked(s, entries, files) <==>
            |files| == |entries| && forall i | 0 <= i < |entries| ::
              files[i].entry == entries[i] && KeepsContent(s, entries[i], files[i].content)
  {
    if entries != [] && files != [] {
      KeptOneByOne(s, entries[1..], files[1..]);
      if |files| == |entries| {
        assert forall i | 0 < i < |entries| :: entries[i] == entries[1..][i - 1] && files[i] == files[1..][i - 1];
        assert forall i | 0 <= i < |entries[1..]| :: entries[1..][i] == entries[i + 1] && files[1..][i] == files[i + 1];
      }
    }
  }

  /** To describe an instant is to portray its state. */
  lemma DescribesIsPortrayal(env: History, t: nat, head: string, captured: Captured)
    ensures Describes(env, t, head, captured) <==> Portrays(env(t), head, captured)
  {
    var s := env(t);
    UntrackedOfState(s, 1, s.status, captured.untracked);
    var u := ReadUntracked(Constant(s), 1, Untracked(s.status)).1;
    TrackedOfState(s, u + 5, s.manifest, captured.tracked);
    KeptOneByOne(s, s.manifest, captured.tracked);
    if ReadUntracked(Constant(s), 1, Untracked(s.status)).0.Ok? {
      UntrackedOfState(s, 1, s.status, ReadUntracked(Constant(s), 1, Untracked(s.status)).0.value);
    }
  }

  /* ---- What one attempt reads ---- */

  /** The components that a run of reads looks at, one a read. */
  datatype Trace = End | Read(component: Component, rest: Trace)

  function Count(trace: Trace): nat {
    match trace
    case End => 0
    case Read(_, rest) => 1 + Count(rest)
  }

  function ReadAt(trace: Trace, k: nat): Component
    requires k < Count(trace)
  {
    if k == 0 then trace.component else ReadAt(trace.rest, k - 1)
  }

  function FileReads(paths: seq<string>, rest: Trace): Trace {
    if paths == [] then rest else Read(File(paths[0]), FileReads(paths[1..], rest))
  }

  function TrackedReads(files: seq<TrackedFile>): Trace {
    if files == [] then End
    else if NeedsRead(files[0].entry) then Read(File(files[0].entry.path), TrackedReads(files[1..]))
    else TrackedReads(files[1..])
  }

  function LaterReads(captured: Captured): Trace {
    Read(Committed, Read(Staged, Read(Unstaged, Read(Aggregate, Read(Manifest, TrackedReads(captured.tracked))))))
  }

  function RestReads(captured: Captured): Trace {
    FileReads(Untracked(captured.status), LaterReads(captured))
  }

  /** What a collect reads when it ends with this candidate. */
  function Reads(captured: Captured): Trace {
    Read(Status, RestReads(captured))
  }

  /** An attempt that collected from read `start`, rechecked from read `m` and accepted before read `end`. */
  predicate Accepted(env: History, start: nat, m: nat, head: string, captured: Captured, end: nat) {
    Collect(env, start) == (Ok(captured), m) && Recheck(env, m, head, captured) == (Ok(true), end)
  }

  /** An accepted attempt, wherever its recheck began. */
  predicate AcceptedFrom(env: History, start: nat, head: string, captured: Captured, end: nat) {
    Accepted(env, start, Collect(env, start).1, head, captured, end)
  }

  predicate Looks(trace: Trace, c: Component) {
    trace.Read? && (trace.component == c || Looks(trace.rest, c))
  }

  predicate IsRead(captured: Captured, c: Component) {
    Looks(Reads(captured), c)
  }

  /** While the attempt runs, nothing that it reads takes a value again once it has left it. */
  ghost predicate Steady(env: History, captured: Captured, start: nat, end: nat) {
    forall c: Component, i: nat, j: nat, k: nat | IsRead(captured, c) && start <= i <= j <= k < end ::
      Stays(env, c, i, j, k)
  }

  /** At most three attempts; a file that is not a regular one when it is read ends them with an error naming it. If nothing
      that the accepted attempt reads returned to a value it had left while that attempt ran, the capture is the state of
      one instant of the attempt. */
  method CaptureLocalComparison(env: History, head: string)
    returns (r: Result<Captured, GitError>, end: nat, ghost starts: seq<nat>)
    ensures 1 <= |starts| && starts[0] == 0
    ensures forall a | 0 <= a < |starts| - 1 :: Contradicted(env, starts[a], head, starts[a + 1])
    ensures r.Ok? ==> |starts| <= 3 && AcceptedFrom(env, starts[|starts| - 1], head, r.value, end)
    ensures r.Ok? && Steady(env, r.value, starts[|starts| - 1], end) ==>
              exists t: nat :: starts[|starts| - 1] <= t < end && Portrays(env(t), head, r.value)
    ensures r.Err? && r.error.ConcurrentModification? ==>
              r.error.attempts == 3 && |starts| == 4 && starts[3] == end
    ensures r.Err? && r.error.UnreadableFile? ==>
              |starts| <= 3 && Unreadable(env, starts[|starts| - 1], head, r.error, end)
    ensures r.Err? && r.error.UnreadableFile? ==> end > 0 && !FileAt(env(end - 1), r.error.path).Regular?
  {
    end := 0;
    starts := [0];
    for attempt := 1 to MAX_ATTEMPTS + 1
      invariant |starts| == attempt && starts[0] == 0 && starts[attempt - 1] == end
      invariant forall a | 0 <= a < attempt - 1 :: Contradicted(env, starts[a], head, starts[a + 1])
    {
      var collected, m := CaptureOnce(env, end);
      if collected.Err? {
        CollectErrors(env, end);
        return Err(collected.error), m, starts;
      }
      var current, t := StillCurrent(env, m, head, collected.value);
      if current.Err? {
        RecheckErrors(env, m, head, collected.value);
        return Err(current.error), t, starts;
      }
      if current.value {
        CollectErrors(env, end);
        RecheckErrors(env, m, head, collected.value);
        assert Accepted(env, end, m, head, collected.value, t);
        if Steady(env, collected.value, end, t) {
          AcceptedIsCoherent(env, end, m, head, collected.value, t);
          DescribesIsPortrayal(env, m, head, collected.value);
        }
        return collected, t, starts;
      }
      end := t;
      starts := starts + [end];
    }
    return Err(ConcurrentModification(MAX_ATTEMPTS)), end, starts;
  }

  /* ---- Why an accepted capture is coherent ---- */

  /** The read before `end` found that the path the error names is not a regular file. */
  predicate Names(env: History, end: nat, error: GitError) {
    error.UnreadableFile? && end > 0 && !FileAt(env(end - 1), error.path).Regular?
  }

  lemma {:induction false} UntrackedErrors(env: History, k: nat, paths: seq<string>)
    ensures k <= ReadUntracked(env, k, paths).1
    ensures ReadUntracked(env, k, paths).0.Err? ==>
              Names(env, ReadUntracked(env, k, paths).1, ReadUntracked(env, k, paths).0.error)
    ensures ReadUntracked(env, k, paths).0.Ok? ==> ReadUntracked(env, k, paths).1 == k + |paths|
    decreases |paths|
  {
    if paths != [] {
      UntrackedErrors(env, k + 1, paths[1..]);
    }
  }

  lemma {:induction false} TrackedErrors(env: History, k: nat, entries: seq<ManifestEntry>)
    ensures k <= ReadTracked(env, k, entries).1
    ensures ReadTracked(env, k, entries).0.Err? ==>
              Names(env, ReadTracked(env, k, entries).1, ReadTracked(env, k, entries).0.error)
    decreases |entries|
  {
    if entries != [] {
      TrackedErrors(env, if NeedsRead(entries[0]) then k + 1 else k, entries[1..]);
    }
  }

  lemma CollectErrors(env: History, k: nat)
    ensures k < Collect(env, k).1
    ensures Collect(env, k).0.Err? ==> Names(env, Collect(env, k).1, Collect(env, k).0.error)
  {
    var (untracked, u) := ReadUntracked(env, k + 1, Untracked(env(k).status));
    UntrackedErrors(env, k + 1, Untracked(env(k).status));
    TrackedErrors(env, u + 5, env(u + 4).manifest);
  }

  lemma RecheckLaterEnds(env: History, u: nat, captured: Captured)
    ensures u + 4 <= RecheckLater(env, u, captured).1
    ensures RecheckLater(env, u, captured).0.Err? ==>
              Names(env, RecheckLater(env, u, captured).1, RecheckLater(env, u, captured).0.error)
  {
    TrackedErrors(env, u + 5, env(u + 4).manifest);
  }

  lemma RecheckErrors(env: History, k: nat, head: string, captured: Captured)
    ensures k < Recheck(env, k, head, captured).1
    ensures Recheck(env, k, head, captured).0.Err? ==>
              Names(env, Recheck(env, k, head, captured).1, Recheck(env, k, head, captured).0.error)
  {
    UntrackedErrors(env, k + 2, Untracked(captured.status));
    RecheckLaterEnds(env, ReadUntracked(env, k + 2, Untracked(captured.status)).1, captured);
  }

  /** Two runs of reads, one from the a-th read of a history and one from the b-th of another, that see the same. */
  predicate Agree(env: History, a: nat, other: History, b: nat, trace: Trace)
    decreases trace
  {
    trace.Read? ==>
      Observe(env(a), trace.component) == Observe(other(b), trace.component) &&
      Agree(env, a + 1, other, b + 1, trace.rest)
  }

  lemma {:induction false} AgreeAt(env: History, a: nat, other: History, b: nat, trace: Trace, k: nat)
    requires Agree(env, a, other, b, trace) && k < Count(trace)
    ensures Observe(env(a + k), ReadAt(trace, k)) == Observe(other(b + k), ReadAt(trace, k))
    decreases k
  {
    if 0 < k {
      AgreeAt(env, a + 1, other, b + 1, trace.rest, k - 1);
    }
  }

  lemma {:induction false} Disagreement(env: History, a: nat, other: History, b: nat, trace: Trace) returns (k: nat)
    requires !Agree(env, a, other, b, trace)
    ensures k < Count(trace) && Observe(env(a + k), ReadAt(trace, k)) != Observe(other(b + k), ReadAt(trace, k))
    decreases trace
  {
    if Observe(env(a), trace.component) != Observe(other(b), trace.component) {
      k := 0;
    } else {
      k := Disagreement(env, a + 1, other, b + 1, trace.rest);
      k := k + 1;
    }
  }

  lemma {:induction false} CountFiles(paths: seq<string>, rest: Trace)
    ensures Count(FileReads(paths, rest)) == |paths| + Count(rest)
  {
    if paths != [] {
      CountFiles(paths[1..], rest);
    }
  }

  lemma ExtendedInjective<T>(x: T, xs: Result<seq<T>, GitError>, y: T, ys: Result<seq<T>, GitError>)
    requires xs.Ok?
    ensures Extended([y], ys) == Extended([x], xs) <==> y == x && ys == xs
  {
    if Extended([y], ys) == Extended([x], xs) {
      assert ([x] + xs.value)[0] == x && ([x] + xs.value)[1..] == xs.value;
      assert ([y] + ys.value)[0] == y && ([y] + ys.value)[1..] == ys.value;
    }
  }

  /** Untracked files are read alike exactly when the files are alike at their reads. */
  lemma {:induction false} UntrackedDecide(env: History, a: nat, u: nat, other: History, b: nat, v: nat,
                                           paths: seq<string>, files: seq<UntrackedFile>, rest: Trace)
    requires ReadUntracked(env, a, paths).0 == Ok(files) && u == a + |paths| && v == b + |paths|
    ensures Agree(env, a, other, b, FileReads(paths, rest)) <==>
            ReadUntracked(other, b, paths).0 == Ok(files) && Agree(env, u, other, v, rest)
    decreases |paths|
  {
    if paths != [] {
      var path := paths[0];
      var x, y := UntrackedContent(path, FileAt(env(a), path)), UntrackedContent(path, FileAt(other(b), path));
      var more := ReadUntracked(env, a + 1, paths[1..]).0;
      UntrackedDecide(env, a + 1, u, other, b + 1, v, paths[1..], more.value, rest);
      if y.Ok? {
        ExtendedInjective(x.value, more, y.value, ReadUntracked(other, b + 1, paths[1..]).0);
      }
    }
  }

  /** What was read of a manifest lists the manifest's own entries. */
  predicate Lists(files: seq<TrackedFile>, entries: seq<ManifestEntry>) {
    |files| == |entries| && (files != [] ==> files[0].entry == entries[0] && Lists(files[1..], entries[1..]))
  }

  lemma {:induction false} TrackedLists(env: History, k: nat, entries: seq<ManifestEntry>, files: seq<TrackedFile>)
    requires ReadTracked(env, k, entries).0 == Ok(files)
    ensures Lists(files, entries) && ReadTracked(env, k, entries).1 == k + Count(TrackedReads(files))
    decreases |entries|
  {
    if entries != [] {
      var next := if NeedsRead(entries[0]) then k + 1 else k;
      var rest := ReadTracked(env, next, entries[1..]).0.value;
      assert files == [files[0]] + rest && files[1..] == rest;
      TrackedLists(env, next, entries[1..], rest);
    }
  }

  lemma {:induction false} ListsOnce(files: seq<TrackedFile>, first: seq<ManifestEntry>, second: seq<ManifestEntry>)
    requires Lists(files, first) && Lists(files, second)
    ensures first == second
  {
    if files != [] {
      ListsOnce(files[1..], first[1..], second[1..]);
      assert first == [first[0]] + first[1..] && second == [second[0]] + second[1..];
    }
  }

  /** Tracked files are read alike exactly when the files that are read are alike at their reads. */
  lemma {:induction false} TrackedDecide(env: History, a: nat, other: History, b: nat, entries: seq<ManifestEntry>,
                                         files: seq<TrackedFile>)
    requires ReadTracked(env, a, entries).0 == Ok(files)
    ensures ReadTracked(other, b, entries).0 == Ok(files) <==> Agree(env, a, other, b, TrackedReads(files))
    decreases |entries|
  {
    if entries != [] {
      var entry, rest := entries[0], entries[1..];
      var p, q := if NeedsRead(entry) then a + 1 else a, if NeedsRead(entry) then b + 1 else b;
      var more := ReadTracked(env, p, rest).0.value;
      assert files == [files[0]] + more && files[1..] == more;
      TrackedDecide(env, p, other, q, rest, more);
      var x, y := FileRead(env, a, entry), FileRead(other, b, entry);
      if y.Ok? {
        ExtendedInjective(x.value, ReadTracked(env, p, rest).0, y.value, ReadTracked(other, q, rest).0);
      }
    }
  }

  /* What a collect ended with, by the reads it made, part by part. */

  predicate UntrackedAs(env: History, k: nat, captured: Captured) {
    ReadUntracked(env, k, Untracked(captured.status)).0 == Ok(captured.untracked)
  }

  predicate PatchesAs(env: History, k: nat, captured: Captured) {
    && env(k).committed == captured.committed && env(k + 1).staged == captured.staged
    && env(k + 2).unstaged == captured.unstaged && env(k + 3).aggregate == captured.aggregate
  }

  predicate TrackedAs(env: History, k: nat, files: seq<TrackedFile>) {
    ReadTracked(env, k + 1, env(k).manifest).0 == Ok(files)
  }

  predicate LaterAs(env: History, k: nat, captured: Captured) {
    PatchesAs(env, k, captured) && TrackedAs(env, k + 4, captured.tracked)
  }

  /** All but the status: the untracked files read from one instant on, the rest from another. */
  predicate RestAs(env: History, k: nat, u: nat, captured: Captured) {
    UntrackedAs(env, k, captured) && LaterAs(env, u, captured)
  }

  predicate ReadAs(env: History, k: nat, captured: Captured) {
    env(k).status == captured.status && RestAs(env, k + 1, k + 1 + |Untracked(captured.status)|, captured)
  }

  lemma ManifestDecide(env: History, a: nat, other: History, b: nat, files: seq<TrackedFile>)
    requires TrackedAs(env, a, files)
    ensures TrackedAs(other, b, files) <==> Agree(env, a, other, b, Read(Manifest, TrackedReads(files)))
  {
    TrackedLists(env, a + 1, env(a).manifest, files);
    if TrackedAs(other, b, files) {
      TrackedLists(other, b + 1, other(b).manifest, files);
      ListsOnce(files, env(a).manifest, other(b).manifest);
    }
    TrackedDecide(env, a + 1, other, b + 1, env(a).manifest, files);
  }

  lemma LaterParts(env: History, a: nat, other: History, b: nat, captured: Captured)
    ensures Agree(env, a, other, b, LaterReads(captured)) <==>
            && env(a).committed == other(b).committed && env(a + 1).staged == other(b + 1).staged
            && env(a + 2).unstaged == other(b + 2).unstaged && env(a + 3).aggregate == other(b + 3).aggregate
            && Agree(env, a + 4, other, b + 4, Read(Manifest, TrackedReads(captured.tracked)))
  {
    var last := Read(Manifest, TrackedReads(captured.tracked));
    assert Agree(env, a + 2, other, b + 2, Read(Unstaged, Read(Aggregate, last))) <==>
           env(a + 2).unstaged == other(b + 2).unstaged && env(a + 3).aggregate == other(b + 3).aggregate
           && Agree(env, a + 4, other, b + 4, last);
  }

  lemma LaterDecide(env: History, a: nat, other: History, b: nat, captured: Captured)
    requires LaterAs(env, a, captured)
    ensures LaterAs(other, b, captured) <==> Agree(env, a, other, b, LaterReads(captured))
  {
    LaterParts(env, a, other, b, captured);
    ManifestDecide(env, a + 4, other, b + 4, captured.tracked);
  }

  lemma RestDecide(env: History, a: nat, u: nat, other: History, b: nat, v: nat, captured: Captured)
    requires RestAs(env, a, u, captured)
    requires u == a + |Untracked(captured.status)| && v == b + |Untracked(captured.status)|
    ensures RestAs(other, b, v, captured) <==> Agree(env, a, other, b, RestReads(captured))
  {
    UntrackedDecide(env, a, u, other, b, v, Untracked(captured.status), captured.untracked, LaterReads(captured));
    LaterDecide(env, u, other, v, captured);
  }

  lemma ReadAsIs(env: History, k: nat, f: nat, u: nat, captured: Captured)
    requires f == k + 1 && u == f + |Untracked(captured.status)|
    ensures ReadAs(env, k, captured) <==> env(k).status == captured.status && RestAs(env, f, u, captured)
  {
  }

  /** A collect has the same result elsewhere exactly when each of its reads sees the same there. */
  lemma ReadsDecide(env: History, a: nat, other: History, b: nat, captured: Captured)
    requires ReadAs(env, a, captured)
    ensures ReadAs(other, b, captured) <==> Agree(env, a, other, b, Reads(captured))
  {
    var n := |Untracked(captured.status)|;
    var p, q, u, v := a + 1, b + 1, a + 1 + n, b + 1 + n;
    ReadAsIs(env, a, p, u, captured);
    RestDecide(env, p, u, other, q, v, captured);
    ReadAsIs(other, b, q, v, captured);
  }

  lemma ReadsCount(captured: Captured)
    ensures Count(Reads(captured)) == 1 + |Untracked(captured.status)| + 5 + Count(TrackedReads(captured.tracked))
  {
    CountFiles(Untracked(captured.status), LaterReads(captured));
    LaterCount(TrackedReads(captured.tracked));
  }

  lemma LaterCount(last: Trace)
    ensures Count(Read(Committed, Read(Staged, Read(Unstaged, Read(Aggregate, Read(Manifest, last)))))) == 5 + Count(last)
  {
    var manifest := Read(Manifest, last);
    var aggregate := Read(Aggregate, manifest);
    var unstaged := Read(Unstaged, aggregate);
    assert Count(manifest) == 1 + Count(last);
    assert Count(aggregate) == 1 + Count(manifest);
    assert Count(unstaged) == 1 + Count(aggregate);
    assert Count(Read(Staged, unstaged)) == 1 + Count(unstaged);
  }

  /** The number of the next read after a collect. */
  lemma ReadEnd(env: History, k: nat, captured: Captured, u: nat)
    requires TrackedAs(env, u, captured.tracked) && u == k + 1 + |Untracked(captured.status)| + 4
    ensures ReadTracked(env, u + 1, env(u).manifest).1 == k + Count(Reads(captured))
  {
    TrackedLists(env, u + 1, env(u).manifest, captured.tracked);
    ReadsCount(captured);
  }

  lemma CollectedLater(env: History, u: nat, captured: Captured, status: seq<StatusEntry>,
                       untracked: seq<UntrackedFile>)
    ensures CollectLater(env, u, status, untracked).0 == Ok(captured) <==>
            status == captured.status && untracked == captured.untracked && LaterAs(env, u, captured)
    ensures CollectLater(env, u, status, untracked).1 == ReadTracked(env, u + 5, env(u + 4).manifest).1
  {
  }

  lemma CollectedFiles(env: History, k: nat, status: seq<StatusEntry>, captured: Captured, u: nat)
    requires u == k + |Untracked(status)|
    ensures CollectFiles(env, k, status).0 == Ok(captured) <==> status == captured.status && RestAs(env, k, u, captured)
  {
    var untracked := ReadUntracked(env, k, Untracked(status)).0;
    UntrackedErrors(env, k, Untracked(status));
    if untracked.Ok? {
      CollectedLater(env, u, captured, status, untracked.value);
    }
  }

  lemma CollectedFilesEnd(env: History, k: nat, status: seq<StatusEntry>, captured: Captured, u: nat)
    requires u == k + |Untracked(status)| && CollectFiles(env, k, status).0 == Ok(captured)
    ensures CollectFiles(env, k, status).1 == ReadTracked(env, u + 5, env(u + 4).manifest).1
    ensures status == captured.status && LaterAs(env, u, captured)
  {
    UntrackedErrors(env, k, Untracked(status));
    CollectedLater(env, u, captured, status, ReadUntracked(env, k, Untracked(status)).0.value);
  }

  lemma CollectedAs(env: History, k: nat, captured: Captured, u: nat)
    requires u == k + 1 + |Untracked(captured.status)|
    ensures Collect(env, k).0 == Ok(captured) <==> env(k).status == captured.status && RestAs(env, k + 1, u, captured)
  {
    CollectedFiles(env, k + 1, env(k).status, captured, k + 1 + |Untracked(env(k).status)|);
  }

  lemma CollectFields(env: History, k: nat, captured: Captured)
    ensures Collect(env, k).0 == Ok(captured) <==> ReadAs(env, k, captured)
  {
    var u := k + 1 + |Untracked(captured.status)|;
    CollectedAs(env, k, captured, u);
    ReadAsIs(env, k, k + 1, u, captured);
  }

  lemma CollectEnd(env: History, k: nat, captured: Captured)
    requires Collect(env, k).0 == Ok(captured)
    ensures Collect(env, k).1 == k + Count(Reads(captured))
  {
    var u := k + 1 + |Untracked(env(k).status)|;
    CollectedFilesEnd(env, k + 1, env(k).status, captured, u);
    ReadEnd(env, k, captured, u + 4);
  }

  lemma RecheckedLater(env: History, u: nat, captured: Captured)
    ensures RecheckLater(env, u, captured).0 == Ok(true) <==> LaterAs(env, u, captured)
    ensures LaterAs(env, u, captured) ==>
              RecheckLater(env, u, captured).1 == ReadTracked(env, u + 5, env(u + 4).manifest).1
  {
  }

  lemma RecheckedFiles(env: History, k: nat, captured: Captured, u: nat)
    requires u == k + |Untracked(captured.status)|
    ensures RecheckFiles(env, k, captured).0 == Ok(true) <==> RestAs(env, k, u, captured)
    ensures RestAs(env, k, u, captured) ==>
              RecheckFiles(env, k, captured).1 == ReadTracked(env, u + 5, env(u + 4).manifest).1
  {
    UntrackedErrors(env, k, Untracked(captured.status));
    RecheckedLater(env, u, captured);
  }

  lemma RecheckedAs(env: History, m: nat, head: string, captured: Captured, v: nat)
    requires v == m + 2 + |Untracked(captured.status)|
    ensures Recheck(env, m, head, captured).0 == Ok(true) <==>
            env(m).head == head && env(m + 1).status == captured.status && RestAs(env, m + 2, v, captured)
    ensures Recheck(env, m, head, captured).0 == Ok(true) ==>
              Recheck(env, m, head, captured).1 == ReadTracked(env, v + 5, env(v + 4).manifest).1
  {
    RecheckedFiles(env, m + 2, captured, v);
  }

  /** An accepting recheck is a fitting head followed by a second collect with the same result. */
  lemma RecheckFields(env: History, m: nat, head: string, captured: Captured)
    ensures Recheck(env, m, head, captured).0 == Ok(true) <==> env(m).head == head && ReadAs(env, m + 1, captured)
  {
    var v := m + 2 + |Untracked(captured.status)|;
    RecheckedAs(env, m, head, captured, v);
    ReadAsIs(env, m + 1, m + 2, v, captured);
  }

  lemma RecheckEnd(env: History, m: nat, head: string, captured: Captured)
    requires Recheck(env, m, head, captured).0 == Ok(true)
    ensures Recheck(env, m, head, captured).1 == m + 1 + Count(Reads(captured))
  {
    var v := m + 2 + |Untracked(captured.status)|;
    RecheckedAs(env, m, head, captured, v);
    ReadEnd(env, m + 1, captured, v + 4);
  }

  /** When an attempt is accepted: the head fits, and each component is read alike the second time. */
  lemma AcceptedWhen(env: History, start: nat, m: nat, head: string, captured: Captured)
    requires Collect(env, start).0 == Ok(captured)
    ensures Recheck(env, m, head, captured).0 == Ok(true) <==>
            env(m).head == head && Agree(env, start, env, m + 1, Reads(captured))
  {
    CollectFields(env, start, captured);
    RecheckFields(env, m, head, captured);
    ReadsDecide(env, start, env, m + 1, captured);
  }

  /** When a capture describes an instant: the head fits, and everything read has the value it was read with. */
  lemma DescribesWhen(env: History, start: nat, head: string, captured: Captured, t: nat)
    requires Collect(env, start).0 == Ok(captured)
    ensures Describes(env, t, head, captured) <==>
            env(t).head == head && Agree(env, start, Constant(env(t)), 0, Reads(captured))
  {
    CollectFields(env, start, captured);
    CollectFields(Constant(env(t)), 0, captured);
    ReadsDecide(env, start, Constant(env(t)), 0, captured);
  }

  /** A component read alike before and after an instant has that value at the instant. */
  lemma SteadyAt(env: History, captured: Captured, start: nat, end: nat, c: Component, before: nat, t: nat, after: nat)
    requires Steady(env, captured, start, end) && IsRead(captured, c) && start <= before <= t <= after < end
    requires Observe(env(before), c) == Observe(env(after), c)
    ensures Observe(env(t), c) == Observe(env(before), c)
  {
    assert Stays(env, c, before, t, after);
  }

  lemma {:induction false} SteadyAgrees(env: History, captured: Captured, start: nat, end: nat, a: nat, t: nat, b: nat,
                                        z: nat, trace: Trace)
    requires Steady(env, captured, start, end) && (forall c | Looks(trace, c) :: IsRead(captured, c))
    requires start <= a && a + Count(trace) <= t <= b && b + Count(trace) <= end
    requires Agree(env, a, env, b, trace)
    ensures Agree(env, a, Constant(env(t)), z, trace)
    decreases trace
  {
    if trace.Read? {
      assert Looks(trace, trace.component);
      SteadyAt(env, captured, start, end, trace.component, a, t, b);
      SteadyAgrees(env, captured, start, end, a + 1, t, b + 1, z + 1, trace.rest);
    }
  }

  lemma SteadyInstant(env: History, start: nat, m: nat, captured: Captured, end: nat, trace: Trace)
    requires trace == Reads(captured) && m == start + Count(trace) && end == m + 1 + Count(trace)
    requires Steady(env, captured, start, end) && Agree(env, start, env, m + 1, trace)
    ensures Agree(env, start, Constant(env(m)), 0, trace)
  {
    SteadyAgrees(env, captured, start, end, start, m, m + 1, 0, trace);
  }

  lemma AgreementIsCoherent(env: History, start: nat, m: nat, head: string, captured: Captured)
    requires Collect(env, start).0 == Ok(captured) && env(m).head == head
    requires Agree(env, start, Constant(env(m)), 0, Reads(captured))
    ensures Describes(env, m, head, captured)
  {
    DescribesWhen(env, start, head, captured, m);
  }

  /** The heart of the double collect: the first read of the recheck is an instant the capture describes. */
  lemma AcceptedIsCoherent(env: History, start: nat, m: nat, head: string, captured: Captured, end: nat)
    requires Accepted(env, start, m, head, captured, end) && Steady(env, captured, start, end)
    ensures start <= m < end && Describes(env, m, head, captured)
  {
    CollectEnd(env, start, captured);
    RecheckEnd(env, m, head, captured);
    AcceptedWhen(env, start, m, head, captured);
    SteadyInstant(env, start, m, captured, end, Reads(captured));
    AgreementIsCoherent(env, start, m, head, captured);
  }

  /* ---- Why an attempt is rejected ---- */

  /** The first `n` reads from the b-th on saw what those from the a-th on saw. */
  predicate SawSame(env: History, a: nat, b: nat, trace: Trace, n: nat)
    decreases trace
  {
    trace.Read? && n > 0 ==>
      Observe(env(a), trace.component) == Observe(env(b), trace.component) &&
      SawSame(env, a + 1, b + 1, trace.rest, n - 1)
  }

  lemma {:induction false} SawAll(env: History, a: nat, b: nat, trace: Trace, n: nat)
    requires SawSame(env, a, b, trace, n) && Count(trace) <= n
    ensures Agree(env, a, env, b, trace)
    decreases trace
  {
    if trace.Read? {
      SawAll(env, a + 1, b + 1, trace.rest, n - 1);
    }
  }

  lemma {:induction false} FilesUnchanged(env: History, a: nat, u: nat, b: nat, v: nat, paths: seq<string>,
                                          files: seq<UntrackedFile>, rest: Trace, n: nat, left: nat)
    requires ReadUntracked(env, a, paths).0 == Ok(files) && u == a + |paths| && v == b + |paths|
    requires n == |paths| + left && SawSame(env, a, b, FileReads(paths, rest), n)
    ensures ReadUntracked(env, b, paths).0 == Ok(files) && SawSame(env, u, v, rest, left)
    decreases |paths|
  {
    if paths != [] {
      var more := ReadUntracked(env, a + 1, paths[1..]).0.value;
      FilesUnchanged(env, a + 1, u, b + 1, v, paths[1..], more, rest, n - 1, left);
    }
  }

  lemma PatchesUnchanged(env: History, a: nat, b: nat, captured: Captured, n: nat)
    requires PatchesAs(env, a, captured) && 4 <= n && SawSame(env, a, b, LaterReads(captured), n)
    ensures PatchesAs(env, b, captured)
    ensures SawSame(env, a + 4, b + 4, Read(Manifest, TrackedReads(captured.tracked)), n - 4)
  {
    var last := Read(Manifest, TrackedReads(captured.tracked));
    assert SawSame(env, a + 1, b + 1, Read(Staged, Read(Unstaged, Read(Aggregate, last))), n - 1);
    assert SawSame(env, a + 2, b + 2, Read(Unstaged, Read(Aggregate, last)), n - 2);
    assert SawSame(env, a + 3, b + 3, Read(Aggregate, last), n - 3);
  }

  /** The manifest read at `k` and the tracked files were read, and the reads ended before `end`. */
  predicate TrackedMade(env: History, k: nat, end: nat) {
    ReadTracked(env, k + 1, env(k).manifest).0.Ok? && ReadTracked(env, k + 1, env(k).manifest).1 == end && k + 1 <= end
  }

  lemma TrackedUnchanged(env: History, a: nat, b: nat, files: seq<TrackedFile>, end: nat, n: nat)
    requires TrackedAs(env, a, files) && TrackedMade(env, b, end) && end == b + n
    requires SawSame(env, a, b, Read(Manifest, TrackedReads(files)), n)
    ensures TrackedAs(env, b, files)
  {
    var read := ReadTracked(env, b + 1, env(b).manifest).0.value;
    TrackedLists(env, a + 1, env(a).manifest, files);
    TrackedLists(env, b + 1, env(b).manifest, read);
    SameReads(files, read, env(a).manifest);
    SawAll(env, a, b, Read(Manifest, TrackedReads(files)), n);
    ManifestDecide(env, a, env, b, files);
  }

  lemma {:induction false} SameReads(files: seq<TrackedFile>, read: seq<TrackedFile>, entries: seq<ManifestEntry>)
    requires Lists(files, entries) && Lists(read, entries)
    ensures TrackedReads(files) == TrackedReads(read)
  {
    if entries != [] {
      SameReads(files[1..], read[1..], entries[1..]);
    }
  }

  /** How far a recheck gets: it makes each read as long as all before it saw what the collect saw. */
  predicate LaterMade(env: History, v: nat, captured: Captured, end: nat) {
    v + 4 <= end && (PatchesAs(env, v, captured) ==> TrackedMade(env, v + 4, end))
  }

  predicate RestMade(env: History, k: nat, v: nat, captured: Captured, end: nat) {
    v <= end && (UntrackedAs(env, k, captured) ==> LaterMade(env, v, captured, end))
  }

  lemma RecheckLaterMade(env: History, u: nat, captured: Captured)
    requires RecheckLater(env, u, captured).0.Ok?
    ensures LaterMade(env, u, captured, RecheckLater(env, u, captured).1)
  {
    TrackedErrors(env, u + 5, env(u + 4).manifest);
  }

  lemma RecheckFilesMade(env: History, k: nat, captured: Captured, u: nat)
    requires RecheckFiles(env, k, captured).0.Ok? && u == k + |Untracked(captured.status)|
    ensures RestMade(env, k, u, captured, RecheckFiles(env, k, captured).1)
  {
    UntrackedErrors(env, k, Untracked(captured.status));
    if UntrackedAs(env, k, captured) {
      RecheckLaterMade(env, u, captured);
    } else {
      RecheckLaterEnds(env, u, captured);
    }
  }

  lemma RecheckMade(env: History, m: nat, head: string, captured: Captured, end: nat, v: nat)
    requires env(m).head == head && v == m + 2 + |Untracked(captured.status)|
    requires Recheck(env, m, head, captured).0.Ok? && Recheck(env, m, head, captured).1 == end
    ensures m + 2 <= end && (env(m + 1).status == captured.status ==> RestMade(env, m + 2, v, captured, end))
  {
    if env(m + 1).status == captured.status {
      RecheckFilesMade(env, m + 2, captured, v);
    }
  }

  lemma LaterUnchanged(env: History, u: nat, v: nat, captured: Captured, end: nat, n: nat)
    requires LaterAs(env, u, captured) && LaterMade(env, v, captured, end) && end == v + n
    requires SawSame(env, u, v, LaterReads(captured), n)
    ensures LaterAs(env, v, captured)
  {
    PatchesUnchanged(env, u, v, captured, n);
    TrackedUnchanged(env, u + 4, v + 4, captured.tracked, end, n - 4);
  }

  lemma RestUnchanged(env: History, a: nat, u: nat, b: nat, v: nat, captured: Captured, end: nat, n: nat, left: nat)
    requires u == a + |Untracked(captured.status)| && v == b + |Untracked(captured.status)|
    requires RestAs(env, a, u, captured) && RestMade(env, b, v, captured, end) && end == b + n == v + left
    requires SawSame(env, a, b, RestReads(captured), n)
    ensures RestAs(env, b, v, captured)
  {
    FilesUnchanged(env, a, u, b, v, Untracked(captured.status), captured.untracked, LaterReads(captured), n, left);
    LaterUnchanged(env, u, v, captured, end, left);
  }

  /** A recheck whose reads all saw what the collect saw has read the candidate again. */
  lemma UnchangedAccepts(env: History, start: nat, u: nat, m: nat, v: nat, captured: Captured, end: nat, n: nat)
    requires u == start + 1 + |Untracked(captured.status)| && v == m + 2 + |Untracked(captured.status)|
    requires m + 2 <= end && end == m + 1 + n
    requires env(start).status == captured.status && RestAs(env, start + 1, u, captured)
    requires env(m + 1).status == captured.status ==> RestMade(env, m + 2, v, captured, end)
    requires SawSame(env, start, m + 1, Reads(captured), n)
    ensures env(m + 1).status == captured.status && RestAs(env, m + 2, v, captured)
  {
    assert SawSame(env, start + 1, m + 2, RestReads(captured), n - 1);
    RestUnchanged(env, start + 1, u, m + 2, v, captured, end, n - 1, end - v);
  }

  /** A recheck that rejects has seen a change. */
  lemma RejectionSawChange(env: History, start: nat, m: nat, head: string, captured: Captured, end: nat)
    requires Collect(env, start).0 == Ok(captured) && env(m).head == head
    requires Recheck(env, m, head, captured) == (Ok(false), end)
    ensures m + 1 <= end && !SawSame(env, start, m + 1, Reads(captured), end - m - 1)
  {
    var u, v := start + 1 + |Untracked(captured.status)|, m + 2 + |Untracked(captured.status)|;
    CollectedAs(env, start, captured, u);
    RecheckMade(env, m, head, captured, end, v);
    if SawSame(env, start, m + 1, Reads(captured), end - m - 1) {
      UnchangedAccepts(env, start, u, m, v, captured, end, end - m - 1);
      RecheckedAs(env, m, head, captured, v);
    }
  }

  /** The k-th read of the recheck after the head was made, and saw another value than the k-th read of the collect. */
  predicate SawChange(env: History, start: nat, m: nat, trace: Trace, end: nat, k: nat) {
    k < Count(trace) && m + 1 + k < end &&
    Observe(env(start + k), ReadAt(trace, k)) != Observe(env(m + 1 + k), ReadAt(trace, k))
  }

  lemma {:induction false} ChangeSeen(env: History, a: nat, b: nat, trace: Trace, n: nat) returns (k: nat)
    requires !SawSame(env, a, b, trace, n)
    ensures k < Count(trace) && k < n && Observe(env(a + k), ReadAt(trace, k)) != Observe(env(b + k), ReadAt(trace, k))
    decreases trace
  {
    if Observe(env(a), trace.component) != Observe(env(b), trace.component) {
      k := 0;
    } else {
      k := ChangeSeen(env, a + 1, b + 1, trace.rest, n - 1);
      k := k + 1;
    }
  }

  lemma ChangeOfState(env: History, start: nat, m: nat, trace: Trace, end: nat, k: nat)
    requires SawChange(env, start, m, trace, end, k) && start + Count(trace) <= m
    ensures exists i: nat :: start <= i < end && env(i) != env(start)
  {
    assert env(start + k) != env(start) || env(m + 1 + k) != env(start);
  }

  /** A rejected attempt has met another head, or a read of its recheck saw another value than the same read of its
      collect: the repository was written while the attempt ran. */
  lemma RejectionHasACause(env: History, start: nat, head: string, end: nat)
    requires Contradicted(env, start, head, end)
    ensures var (collected, m) := Collect(env, start);
            env(m).head != head || exists k: nat :: SawChange(env, start, m, Reads(collected.value), end, k)
    ensures env(start).head != head || exists i: nat :: start <= i < end && env(i) != env(start)
  {
    var (collected, m) := Collect(env, start);
    CollectErrors(env, start);
    RecheckErrors(env, m, head, collected.value);
    if env(m).head == head {
      RejectionSawChange(env, start, m, head, collected.value, end);
      var k := ChangeSeen(env, start, m + 1, Reads(collected.value), end - m - 1);
      assert SawChange(env, start, m, Reads(collected.value), end, k);
      CollectEnd(env, start, collected.value);
      ChangeOfState(env, start, m, Reads(collected.value), end, k);
    } else {
      assert env(start).head == head ==> env(m) != env(start);
    }
  }

  /* ---- Without the assumption the capture can be torn ---- */

  function TwoFiles(a: string, b: string): RepoState {
    RepoState("h", [StatusEntry(true, "a"), StatusEntry(true, "b")], "", "", "", "", [],
              map["a" := Regular(a), "b" := Regular(b)])
  }

  /** Both files flip to one version for the two reads of "a" and are back for the two reads of "b". */
  function Flipping(): History {
    k => if k == 1 || k == 10 then TwoFiles("a1", "b1") else TwoFiles("a2", "b2")
  }

  lemma DistinctNames()
    ensures "a" != "b" && "a1" != "a2" && "b1" != "b2"
    ensures FileAt(TwoFiles("a1", "b1"), "a") == Regular("a1") && FileAt(TwoFiles("a1", "b1"), "b") == Regular("b1")
    ensures FileAt(TwoFiles("a2", "b2"), "a") == Regular("a2") && FileAt(TwoFiles("a2", "b2"), "b") == Regular("b2")
  {
    assert "a"[0] != "b"[0] && "a1"[1] != "a2"[1] && "b1"[1] != "b2"[1];
  }

  lemma PairRead(env: History, k: nat, a: string, b: string)
    requires FileAt(env(k), "a") == Regular(a) && FileAt(env(k + 1), "b") == Regular(b)
    ensures ReadUntracked(env, k, ["a", "b"]) == (Ok([UntrackedFile("a", a), UntrackedFile("b", b)]), k + 2)
  {
    assert ["a", "b"][1..] == ["b"] && ["b"][1..] == [];
    assert ReadUntracked(env, k + 2, []) == (Ok([]), k + 2);
    assert [UntrackedFile("b", b)] + [] == [UntrackedFile("b", b)];
    assert ReadUntracked(env, k + 1, ["b"]) == (Ok([UntrackedFile("b", b)]), k + 2);
    assert [UntrackedFile("a", a)] + [UntrackedFile("b", b)] == [UntrackedFile("a", a), UntrackedFile("b", b)];
  }

  lemma FlipPaths(s: RepoState)
    requires s == TwoFiles("a1", "b1") || s == TwoFiles("a2", "b2")
    ensures Untracked(s.status) == ["a", "b"]
  {
    assert s.status[1..] == [StatusEntry(true, "b")] && s.status[1..][1..] == [];
    assert Untracked([StatusEntry(true, "b")]) == ["b"];
  }

  const TORN := [UntrackedFile("a", "a1"), UntrackedFile("b", "b2")]

  lemma SnapshotPairs(s: RepoState)
    requires s == TwoFiles("a1", "b1") || s == TwoFiles("a2", "b2")
    ensures Snapshot(s).Ok? ==> Snapshot(s).value.untracked != TORN
  {
    FlipPaths(s);
    DistinctNames();
    var version := if s == TwoFiles("a1", "b1") then ("a1", "b1") else ("a2", "b2");
    PairRead(Constant(s), 1, version.0, version.1);
    assert [UntrackedFile("a", version.0), UntrackedFile("b", version.1)][0] != TORN[0] ||
           [UntrackedFile("a", version.0), UntrackedFile("b", version.1)][1] != TORN[1];
  }

  lemma TornCapture()
    ensures Collect(Flipping(), 0) == (Ok(Captured(Flipping()(0).status, TORN, "", "", "", "", [])), 8)
  {
    DistinctNames();
    FlipPaths(Flipping()(0));
    PairRead(Flipping(), 1, "a1", "b2");
  }

  lemma TornRecheck()
    ensures Recheck(Flipping(), 8, "h", Captured(Flipping()(0).status, TORN, "", "", "", "", [])).0 == Ok(true)
  {
    DistinctNames();
    FlipPaths(Flipping()(0));
    PairRead(Flipping(), 10, "a1", "b2");
  }

  lemma NoInstant(t: nat, captured: Captured)
    requires captured.untracked == TORN
    ensures !Describes(Flipping(), t, "h", captured)
  {
    SnapshotPairs(Flipping()(t));
  }

  lemma FlippingReturns(captured: Captured, end: nat)
    requires captured == Captured(Flipping()(0).status, TORN, "", "", "", "", []) && end > 10
    ensures IsRead(captured, File("a")) && !Steady(Flipping(), captured, 0, end)
  {
    DistinctNames();
    FlipPaths(Flipping()(0));
    assert Looks(FileReads(["a", "b"], LaterReads(captured)), File("a"));
    assert !Stays(Flipping(), File("a"), 1, 2, 10);
  }

  /** When files that are read do return to earlier values, an accepted capture can describe no instant at all. */
  lemma ReturningValuesCanTear()
    ensures var (collected, m) := Collect(Flipping(), 0);
            && collected.Ok?
            && var end := Recheck(Flipping(), m, "h", collected.value).1;
            && Accepted(Flipping(), 0, m, "h", collected.value, end)
            && !Steady(Flipping(), collected.value, 0, end)
            && forall t: nat :: !Describes(Flipping(), t, "h", collected.value)
  {
    TornCapture();
    TornRecheck();
    var captured := Collect(Flipping(), 0).0.value;
    RecheckEnd(Flipping(), 8, "h", captured);
    FlippingReturns(captured, Recheck(Flipping(), 8, "h", captured).1);
    forall t: nat ensures !Describes(Flipping(), t, "h", captured) {
      NoInstant(t, captured);
    }
  }

  /* ---- What an attempt cannot see ---- */

  /** Two histories that an attempt cannot tell apart: alike in each component whenever the attempt reads it. */
  predicate AlikeToAttempt(env: History, other: History, start: nat, m: nat, trace: Trace) {
    Agree(env, start, other, start, trace) && env(m).head == other(m).head && Agree(env, m + 1, other, m + 1, trace)
  }

  lemma SameCollect(env: History, other: History, k: nat, captured: Captured, end: nat)
    requires Collect(env, k) == (Ok(captured), end) && Agree(env, k, other, k, Reads(captured))
    ensures Collect(other, k) == (Ok(captured), end)
  {
    CollectFields(env, k, captured);
    ReadsDecide(env, k, other, k, captured);
    CollectFields(other, k, captured);
    SameCollectEnd(env, other, k, captured);
  }

  lemma SameCollectEnd(env: History, other: History, k: nat, captured: Captured)
    requires Collect(env, k).0 == Ok(captured) && Collect(other, k).0 == Ok(captured)
    ensures Collect(other, k).1 == Collect(env, k).1
  {
    CollectEnd(env, k, captured);
    CollectEnd(other, k, captured);
  }

  lemma SameRecheck(env: History, other: History, m: nat, head: string, captured: Captured, end: nat)
    requires Recheck(env, m, head, captured) == (Ok(true), end)
    requires env(m).head == other(m).head && Agree(env, m + 1, other, m + 1, Reads(captured))
    ensures Recheck(other, m, head, captured) == (Ok(true), end)
  {
    RecheckFields(env, m, head, captured);
    ReadsDecide(env, m + 1, other, m + 1, captured);
    RecheckFields(other, m, head, captured);
    SameRecheckEnd(env, other, m, head, captured);
  }

  lemma SameRecheckEnd(env: History, other: History, m: nat, head: string, captured: Captured)
    requires Recheck(env, m, head, captured).0 == Ok(true) && Recheck(other, m, head, captured).0 == Ok(true)
    ensures Recheck(other, m, head, captured).1 == Recheck(env, m, head, captured).1
  {
    RecheckEnd(env, m, head, captured);
    RecheckEnd(other, m, head, captured);
  }

  /** An attempt sees each component at its two reads and nowhere else: whatever else is written, the result is the
      same. */
  lemma OnlyReadsAreSeen(env: History, other: History, start: nat, m: nat, head: string, captured: Captured, end: nat)
    requires Accepted(env, start, m, head, captured, end) && AlikeToAttempt(env, other, start, m, Reads(captured))
    ensures Accepted(other, start, m, head, captured, end)
  {
    SameCollect(env, other, start, captured, m);
    SameRecheck(env, other, m, head, captured, end);
  }

  /** A history with another status except when the status is read, and with another committed patch just then. */
  function Disguised(env: History, start: nat, m: nat, captured: Captured): History {
    (k: nat) => if k == start || k == m + 1 then WithPatch(env(k), captured.committed + "x")
                else WithStatus(env(k), captured.status + [StatusEntry(false, "x")])
  }

  function WithPatch(s: RepoState, patch: string): RepoState {
    s.(committed := patch)
  }

  function WithStatus(s: RepoState, status: seq<StatusEntry>): RepoState {
    s.(status := status)
  }

  lemma {:induction false} LooksAt(trace: Trace, k: nat)
    requires k < Count(trace)
    ensures Looks(trace, ReadAt(trace, k))
  {
    if k > 0 {
      LooksAt(trace.rest, k - 1);
    }
  }

  lemma {:induction false} FilesNotStatus(paths: seq<string>, rest: Trace)
    requires !Looks(rest, Status)
    ensures !Looks(FileReads(paths, rest), Status)
    decreases |paths|
  {
    if paths != [] {
      FilesNotStatus(paths[1..], rest);
    }
  }

  lemma {:induction false} TrackedNotStatus(files: seq<TrackedFile>)
    ensures !Looks(TrackedReads(files), Status)
    decreases |files|
  {
    if files != [] {
      TrackedNotStatus(files[1..]);
    }
  }

  /** The status is read first and never again. */
  lemma StatusFirst(captured: Captured, k: nat)
    requires k < Count(Reads(captured))
    ensures ReadAt(Reads(captured), k) == Status <==> k == 0
  {
    var aggregate := Read(Aggregate, Read(Manifest, TrackedReads(captured.tracked)));
    TrackedNotStatus(captured.tracked);
    assert !Looks(aggregate, Status);
    assert !Looks(Read(Staged, Read(Unstaged, aggregate)), Status);
    FilesNotStatus(Untracked(captured.status), LaterReads(captured));
    if k > 0 {
      LooksAt(RestReads(captured), k - 1);
    }
  }

  lemma DisguisedAlike(env: History, start: nat, m: nat, captured: Captured, from: nat)
    requires m == start + Count(Reads(captured)) && (from == start || from == m + 1)
    ensures Agree(env, from, Disguised(env, start, m, captured), from, Reads(captured))
  {
    var other := Disguised(env, start, m, captured);
    if !Agree(env, from, other, from, Reads(captured)) {
      var k := Disagreement(env, from, other, from, Reads(captured));
      StatusFirst(captured, k);
    }
  }

  lemma DisguisedLooksTheSame(env: History, other: History, start: nat, m: nat, captured: Captured)
    requires m == start + Count(Reads(captured)) && other == Disguised(env, start, m, captured)
    ensures AlikeToAttempt(env, other, start, m, Reads(captured))
  {
    DisguisedAlike(env, start, m, captured, start);
    DisguisedAlike(env, start, m, captured, m + 1);
  }

  /** The status and the committed patch a capture shows were those of the instant. */
  lemma DescribedFields(env: History, t: nat, head: string, captured: Captured)
    requires Describes(env, t, head, captured)
    ensures env(t).status == captured.status && env(t).committed == captured.committed
  {
    CollectFields(Constant(env(t)), 0, captured);
  }

  lemma DisguisedDescribesNothing(env: History, start: nat, m: nat, head: string, captured: Captured, t: nat)
    ensures !Describes(Disguised(env, start, m, captured), t, head, captured)
  {
    var s := Disguised(env, start, m, captured)(t);
    assert t == start || t == m + 1 ==> s == WithPatch(env(t), captured.committed + "x");
    assert t == start || t == m + 1 || s == WithStatus(env(t), captured.status + [StatusEntry(false, "x")]);
    assert |captured.committed + "x"| != |captured.committed|;
    assert |captured.status + [StatusEntry(false, "x")]| != |captured.status|;
    assert s.committed != captured.committed || s.status != captured.status;
    if Describes(Disguised(env, start, m, captured), t, head, captured) {
      DescribedFields(Disguised(env, start, m, captured), t, head, captured);
    }
  }

  /** The assumption cannot be dropped for any attempt: each accepted attempt looks the same in a history, alike at every
      read, in which the capture describes no instant. */
  lemma AnyAttemptCanBeTorn(env: History, start: nat, m: nat, head: string, captured: Captured, end: nat)
    requires Accepted(env, start, m, head, captured, end)
    ensures var other := Disguised(env, start, m, captured);
            && AlikeToAttempt(env, other, start, m, Reads(captured))
            && Accepted(other, start, m, head, captured, end)
            && forall t: nat :: !Describes(other, t, head, captured)
  {
    var other := Disguised(env, start, m, captured);
    CollectEnd(env, start, captured);
    DisguisedLooksTheSame(env, other, start, m, captured);
    OnlyReadsAreSeen(env, other, start, m, head, captured, end);
    forall t: nat ensures !Describes(other, t, head, captured) {
      DisguisedDescribesNothing(env, start, m, head, captured, t);
    }
  }
}
