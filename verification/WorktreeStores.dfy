/** What the managed worktree pool works on (crates/git/src/pool.rs): the registry file, the directories on disk, each Git
    repository's own list of linked worktrees, and a record of what happened to them. */
module WorktreeStores {
  import opened Wrappers
  import opened Ordering

  type Path = string

  datatype Source = KnownClone(path: Path) | ManagedMirror(path: Path)

  datatype Record = Record(id: string, repository: string, path: Path, source: Source, revision: string)

  /** A directory: a linked worktree of a repository, or anything else. */
  datatype Tree = Checkout(owner: Source, dirty: bool) | Plain {
    predicate IsDirty() {
      Checkout? && dirty
    }
  }

  datatype Orphan = Orphan(source: Source, path: Path)

  datatype PoolError = Stopped | AlreadyManaged | PathExists | UnknownWorktree | UnsafePath | DirtyWorktree | StatusFailed |
                       GitFailed(source: Source, path: Path) | MirrorInUse | MirrorHasWorktrees

  function WorktreePath(id: string): Path {
    "reviews/" + id + "/worktree"
  }

  predicate IsManaged(path: Path) {
    "reviews/" <= path
  }

  lemma WorktreePathIsManaged(a: string, b: string)
    ensures IsManaged(WorktreePath(a))
    ensures WorktreePath(a) == WorktreePath(b) ==> a == b
  {
    var x, y := WorktreePath(a), WorktreePath(b);
    if x == y {
      assert |a| == |b|;
      assert x[8..8 + |a|] == a && y[8..8 + |b|] == b;
    }
  }

  /* ---- Repositories in the order of their paths ---- */

  /** Paths are compared component by component, so a separator comes before every other character. */
  function Rank(c: char): int {
    if c == '/' then -1 else c as int
  }

  predicate ComponentLeq(a: Path, b: Path) {
    a == [] || (b != [] && (Rank(a[0]) < Rank(b[0]) || (a[0] == b[0] && ComponentLeq(a[1..], b[1..]))))
  }

  lemma {:induction false} ComponentTransitive(a: Path, b: Path, c: Path)
    requires ComponentLeq(a, b) && ComponentLeq(b, c)
    ensures ComponentLeq(a, c)
  {
    if a != [] && a[0] == b[0] && b[0] == c[0] {
      ComponentTransitive(a[1..], b[1..], c[1..]);
    }
  }

  lemma {:induction false} ComponentTotal(a: Path, b: Path)
    ensures ComponentLeq(a, b) || ComponentLeq(b, a)
  {
    if a != [] && b != [] && a[0] == b[0] {
      ComponentTotal(a[1..], b[1..]);
    }
  }

  lemma {:induction false} ComponentAntisymmetric(a: Path, b: Path)
    requires ComponentLeq(a, b) && ComponentLeq(b, a)
    ensures a == b
  {
    if a != [] && b != [] {
      ComponentAntisymmetric(a[1..], b[1..]);
      assert a == [a[0]] + a[1..] && b == [b[0]] + b[1..];
    }
  }

  /** The paths agree up to `k`, where the component of `a` ends or has the smaller character. */
  predicate ComponentSmallerAt(a: Path, b: Path, k: nat) {
    k < |a| && k < |b| && a[..k] == b[..k] && b[k] != '/' && (a[k] == '/' || a[k] < b[k])
  }

  /** Paths go by the first character in which they differ, a separator before any other, and a parent before its children. */
  lemma {:induction false} ComponentByFirstDifference(a: Path, b: Path)
    ensures ComponentLeq(a, b) <==> a <= b || exists k: nat :: ComponentSmallerAt(a, b, k)
  {
    if a != [] && b != [] && a[0] == b[0] {
      ComponentByFirstDifference(a[1..], b[1..]);
      assert a == [a[0]] + a[1..] && b == [b[0]] + b[1..];
      if k: nat :| ComponentSmallerAt(a[1..], b[1..], k) {
        AgreeFurther(a, b, k);
        assert ComponentSmallerAt(a, b, k + 1);
      }
      if k: nat :| ComponentSmallerAt(a, b, k) {
        AgreeFurther(a, b, k - 1);
        assert ComponentSmallerAt(a[1..], b[1..], k - 1);
      }
    } else if a != [] && b != [] {
      assert Rank(a[0]) < Rank(b[0]) ==> ComponentSmallerAt(a, b, 0);
      if k: nat :| ComponentSmallerAt(a, b, k) {
        if k > 0 {
          AgreeFirst(a, b, k);
        }
      }
    }
  }

  /** One path holds one repository; the kinds are only compared to have an order on all values. */
  predicate SourceLeq(a: Source, b: Source) {
    ComponentLeq(a.path, b.path) && (a.path == b.path ==> a.KnownClone? || b.ManagedMirror?)
  }

  predicate Earlier(a: Source, b: Source) {
    SourceLeq(a, b) && a != b
  }

  lemma SourceTransitive(a: Source, b: Source, c: Source)
    requires SourceLeq(a, b) && SourceLeq(b, c)
    ensures SourceLeq(a, c)
  {
    ComponentTransitive(a.path, b.path, c.path);
    if a.path == c.path {
      ComponentAntisymmetric(a.path, b.path);
    }
  }

  lemma SourceTotal(a: Source, b: Source)
    ensures SourceLeq(a, b) || SourceLeq(b, a)
  {
    ComponentTotal(a.path, b.path);
    if a.path == b.path {
      assert a.KnownClone? || b.ManagedMirror? || (b.KnownClone? && a.ManagedMirror?);
    }
  }

  lemma SourceAntisymmetric(a: Source, b: Source)
    requires SourceLeq(a, b) && SourceLeq(b, a)
    ensures a == b
  {
    ComponentAntisymmetric(a.path, b.path);
  }

  predicate IsFirst(source: Source, sources: set<Source>) {
    source in sources && forall other | other in sources :: SourceLeq(source, other)
  }

  /** A set of repositories has a first one. */
  lemma FirstSource(sources: set<Source>)
    requires sources != {}
    ensures exists source :: IsFirst(source, sources)
    decreases |sources|
  {
    var one :| one in sources;
    SourceTotal(one, one);
    if sources != {one} {
      var rest := sources - {one};
      assert rest != {} && sources == rest + {one};
      FirstSource(rest);
      var first :| IsFirst(first, rest);
      FirstOfMore(one, rest, first);
    } else {
      assert IsFirst(one, sources);
    }
  }

  lemma FirstOfMore(one: Source, rest: set<Source>, first: Source)
    requires IsFirst(first, rest)
    ensures IsFirst(one, rest + {one}) || IsFirst(first, rest + {one})
  {
    SourceTotal(one, first);
    SourceTotal(one, one);
    if SourceLeq(one, first) {
      forall other | other in rest ensures SourceLeq(one, other) {
        SourceTransitive(one, first, other);
      }
    }
  }

  /* ---- The registry file ---- */

  predicate IdLeq(a: Record, b: Record) {
    Leq(a.id, b.id)
  }

  /** Strictly increasing ids: sorted, and each id once. */
  predicate Ordered(registry: seq<Record>) {
    |registry| < 2 || (Below(registry[0].id, registry[1].id) && Ordered(registry[1..]))
  }

  function Find(registry: seq<Record>, id: string): Option<Record> {
    if registry == [] then None else if registry[0].id == id then Some(registry[0]) else Find(registry[1..], id)
  }

  lemma {:induction false} OrderedHead(registry: seq<Record>, id: string)
    requires Ordered(registry) && registry != [] && Leq(id, registry[0].id)
    ensures id != registry[0].id ==> Find(registry, id).None?
    ensures Find(registry[1..], id).None?
  {
    if |registry| > 1 {
      LeqTransitive(id, registry[0].id, registry[1].id);
      if id == registry[1].id {
        LeqAntisymmetric(registry[0].id, registry[1].id);
      }
      OrderedHead(registry[1..], id);
    }
  }

  lemma {:induction false} InsertOrdered(record: Record, registry: seq<Record>)
    requires Ordered(registry) && Find(registry, record.id).None?
    ensures Ordered(InsertBy(record, registry, IdLeq))
    ensures forall id :: Find(InsertBy(record, registry, IdLeq), id) == if id == record.id then
            Some(record) else Find(registry, id)
    ensures InsertBy(record, registry, IdLeq)[0] == record || (registry != [] &&
            InsertBy(record, registry, IdLeq)[0] == registry[0])
  {
    if registry == [] {
      assert [record][1..] == [];
    } else if !Leq(registry[0].id, record.id) {
      LeqTotal(registry[0].id, record.id);
      assert ([record] + registry)[1..] == registry;
    } else {
      InsertOrdered(record, registry[1..]);
      var rest := InsertBy(record, registry[1..], IdLeq);
      assert ([registry[0]] + rest)[1..] == rest;
    }
  }

  lemma {:induction false} InsertLast(record: Record, registry: seq<Record>)
    requires Ordered(registry + [record])
    ensures InsertBy(record, registry, IdLeq) == registry + [record]
  {
    if registry != [] {
      assert (registry + [record])[1..] == registry[1..] + [record];
      InsertLast(record, registry[1..]);
      FirstLeq(registry + [record], |registry|);
    }
  }

  lemma {:induction false} FirstLeq(registry: seq<Record>, k: nat)
    requires Ordered(registry) && k < |registry|
    ensures Leq(registry[0].id, registry[k].id)
  {
    if k == 0 {
      LeqReflexive(registry[0].id);
    } else {
      FirstLeq(registry[1..], k - 1);
      LeqTransitive(registry[0].id, registry[1].id, registry[k].id);
    }
  }

  lemma {:induction false} OrderedPrefix(a: seq<Record>, b: seq<Record>)
    requires Ordered(a + b)
    ensures Ordered(a)
  {
    if |a| > 1 {
      assert (a + b)[1..] == a[1..] + b;
      assert (a + b)[0] == a[0] && (a + b)[1] == a[1];
      OrderedPrefix(a[1..], b);
    }
  }

  /** Sorting a registry that is already ordered leaves it as it is. */
  lemma {:induction false} SortStays(registry: seq<Record>)
    requires Ordered(registry)
    ensures SortBy(registry, IdLeq) == registry
  {
    if registry != [] {
      var init, last := registry[..|registry| - 1], registry[|registry| - 1];
      assert registry == init + [last];
      OrderedPrefix(init, [last]);
      SortStays(init);
      InsertLast(last, init);
    }
  }

  /** A registry is known by what it finds. */
  ghost predicate Replaced(before: seq<Record>, after: seq<Record>, id: string, record: Option<Record>) {
    && Ordered(after) && Find(after, id) == record
    && forall other :: Find(after, other) == if other == id then record else Find(before, other)
  }

  lemma {:induction false} ReplaceAt(registry: seq<Record>, k: nat, record: Record, id: string)
    requires Ordered(registry) && k < |registry| && registry[k].id == record.id
    ensures Ordered(registry[k := record])
    ensures Find(registry[k := record], id) == if id == record.id then Some(record) else Find(registry, id)
  {
    var after := registry[k := record];
    if k > 0 {
      ReplaceAt(registry[1..], k - 1, record, id);
      assert after[1..] == registry[1..][k - 1 := record];
      HeadDiffers(registry, k);
    } else {
      assert after[1..] == registry[1..];
    }
  }

  lemma HeadDiffers(registry: seq<Record>, k: nat)
    requires Ordered(registry) && 0 < k < |registry|
    ensures registry[0].id != registry[k].id
  {
    FirstLeq(registry[1..], k - 1);
    if registry[0].id == registry[k].id {
      LeqAntisymmetric(registry[0].id, registry[1].id);
    }
  }

  lemma {:induction false} RemoveAt(registry: seq<Record>, k: nat, id: string)
    requires Ordered(registry) && k < |registry|
    ensures Ordered(registry[..k] + registry[k + 1..])
    ensures Find(registry[..k] + registry[k + 1..], id) == if id == registry[k].id then None else Find(registry, id)
  {
    var after := registry[..k] + registry[k + 1..];
    if k == 0 {
      assert after == registry[1..];
      LeqReflexive(registry[0].id);
      OrderedHead(registry, registry[0].id);
    } else {
      RemoveAt(registry[1..], k - 1, id);
      assert after[1..] == registry[1..][..k - 1] + registry[1..][k..];
      HeadDiffers(registry, k);
      if |after| > 1 {
        RemovedNext(registry, k);
      }
    }
  }

  lemma RemovedNext(registry: seq<Record>, k: nat)
    requires Ordered(registry) && 0 < k < |registry| && |registry| > 2
    ensures Below(registry[0].id, (registry[..k] + registry[k + 1..])[1].id)
  {
    if k == 1 {
      LeqTransitive(registry[0].id, registry[1].id, registry[2].id);
      if registry[0].id == registry[2].id {
        LeqAntisymmetric(registry[0].id, registry[1].id);
      }
    }
  }

  /** The position of a record, or the number of records. */
  lemma {:induction false} FindFirst(registry: seq<Record>, k: nat, id: string)
    requires k <= |registry| && (forall i | 0 <= i < k :: registry[i].id != id)
    ensures k < |registry| && registry[k].id == id ==> Find(registry, id) == Some(registry[k])
    ensures k == |registry| ==> Find(registry, id).None?
  {
    if k > 0 {
      FindFirst(registry[1..], k - 1, id);
    }
  }

  lemma {:induction false} Found(registry: seq<Record>, id: string)
    requires Find(registry, id).Some?
    ensures Find(registry, id).value in registry && Find(registry, id).value.id == id
  {
    if registry[0].id != id {
      Found(registry[1..], id);
    }
  }

  lemma {:induction false} FindMember(registry: seq<Record>, record: Record)
    requires Ordered(registry) && record in registry
    ensures Find(registry, record.id) == Some(record)
  {
    if registry[0] != record {
      var k :| 0 <= k < |registry| && registry[k] == record;
      HeadDiffers(registry, k);
      assert registry[1..][k - 1] == record;
      FindMember(registry[1..], record);
    }
  }

  /* ---- The three stores ---- */

  type Disk = map<Path, Tree>

  type Lists = map<Source, set<Path>>

  /** What users may do at any moment: change, delete or create directories, but not move Git's links around. */
  predicate Touched(before: Disk, after: Disk) {
    forall p | p in after && after[p].Checkout? :: p in before && before[p].Checkout? && before[p].owner == after[p].owner
  }

  /** Every record is at the path its id gives, and a linked worktree found there belongs to the recorded repository. */
  predicate Recorded(registry: seq<Record>, disk: Disk) {
    forall r {:trigger InPlace(r, disk)} | r in registry :: InPlace(r, disk)
  }

  predicate InPlace(r: Record, disk: Disk) {
    r.path == WorktreePath(r.id) && (r.path in disk && disk[r.path].Checkout? ==> disk[r.path].owner == r.source)
  }

  /** Every linked worktree is on the list of the repository it belongs to. */
  predicate Linked(disk: Disk, lists: Lists) {
    forall p {:trigger IsLinked(p, disk, lists)} | p in disk :: IsLinked(p, disk, lists)
  }

  predicate IsLinked(path: Path, disk: Disk, lists: Lists)
    requires path in disk
  {
    disk[path].Checkout? ==> disk[path].owner in lists && path in lists[disk[path].owner]
  }

  lemma TouchedKeeps(registry: seq<Record>, before: Disk, after: Disk, lists: Lists)
    requires Recorded(registry, before) && Linked(before, lists) && Touched(before, after)
    ensures Recorded(registry, after) && Linked(after, lists)
  {
    forall r | r in registry ensures InPlace(r, after) {
      assert InPlace(r, before);
    }
    forall p | p in after ensures IsLinked(p, after, lists) {
      assert p in before ==> IsLinked(p, before, lists);
    }
  }

  /** What Git's own commands do to the links: a worktree that is added is listed, and one that goes is not there. */
  lemma AddedKeeps(registry: seq<Record>, disk: Disk, lists: Lists, source: Source, path: Path)
    requires Recorded(registry, disk) && Linked(disk, lists) && source in lists && !IsRegistered(registry, path)
    ensures Recorded(registry, disk[path := Checkout(source, false)])
    ensures Linked(disk[path := Checkout(source, false)], lists[source := lists[source] + {path}])
  {
    var disk1, lists1 := disk[path := Checkout(source, false)], lists[source := lists[source] + {path}];
    forall r | r in registry ensures InPlace(r, disk1) {
      assert InPlace(r, disk);
    }
    forall p | p in disk1 ensures IsLinked(p, disk1, lists1) {
      assert p in disk ==> IsLinked(p, disk, lists);
    }
  }

  lemma RemovedKeeps(registry: seq<Record>, disk: Disk, lists: Lists, source: Source, path: Path)
    requires Recorded(registry, disk) && Linked(disk, lists) && source in lists
    ensures Recorded(registry, disk - {path}) && Linked(disk - {path}, lists[source := lists[source] - {path}])
  {
    forall r | r in registry ensures InPlace(r, disk - {path}) {
      assert InPlace(r, disk);
    }
    forall p | p in disk - {path} ensures IsLinked(p, disk - {path}, lists[source := lists[source] - {path}]) {
      assert IsLinked(p, disk, lists);
    }
  }

  /** A record may go, or come if it is in place. */
  lemma RecordsKeep(before: seq<Record>, after: seq<Record>, disk: Disk)
    requires Recorded(before, disk) && forall r | r in after :: r in before || InPlace(r, disk)
    ensures Recorded(after, disk)
  {
    forall r | r in after ensures InPlace(r, disk) {
      assert r in before ==> InPlace(r, disk);
    }
  }

  /** Lists keep their links when they lose no worktree that is there, or gain a repository. */
  lemma ListsKeep(disk: Disk, lists: Lists, after: Lists)
    requires Linked(disk, lists)
    requires forall s, p | s in lists && p in lists[s] && p in disk && disk[p].Checkout? && disk[p].owner == s ::
               s in after && p in after[s]
    ensures Linked(disk, after)
  {
    forall p | p in disk ensures IsLinked(p, disk, after) {
      assert IsLinked(p, disk, lists);
    }
  }

  predicate Clean(disk: Disk, path: Path) {
    path in disk ==> disk[path].Checkout? && !disk[path].dirty
  }

  /** `git worktree prune`: an entry stays if its path holds a linked worktree, of whatever repository. */
  function Pruned(disk: Disk, listed: set<Path>): set<Path> {
    set p | p in listed && p in disk && disk[p].Checkout?
  }

  lemma PrunedWithout(disk: Disk, lists: Lists, source: Source, path: Path)
    ensures source in lists && path !in disk ==> Pruned(disk, lists[source] - {path}) == Pruned(disk, lists[source])
  {
  }

  /** `git worktree remove` without force: a listed worktree of this repository, or one that is gone already. Git refuses a
      dirty one too; `refuses` says so, and the results below tell what rests on that. */
  predicate Removable(disk: Disk, lists: Lists, source: Source, path: Path, refuses: bool) {
    source in lists && path in lists[source] &&
    (path in disk ==> disk[path].Checkout? && disk[path].owner == source && (refuses ==> !disk[path].dirty))
  }

  predicate Addable(disk: Disk, lists: Lists, source: Source, path: Path) {
    source in lists && path !in lists[source] && path !in disk
  }

  predicate IsRegistered(registry: seq<Record>, path: Path) {
    exists r :: r in registry && r.path == path
  }

  /** A checkout wanted: the candidate clones, each with whether it has the remote and the pinned commits. */
  datatype Request = Request(id: string, repository: string, revision: string, knownClones: seq<(Path, bool)>, mirror: Path)

  predicate IsUsable(lists: Lists, clone: (Path, bool)) {
    clone.1 && KnownClone(clone.0) in lists
  }

  /** The first usable known clone, else the repository's mirror. */
  function Chosen(lists: Lists, clones: seq<(Path, bool)>, mirror: Path): Source {
    if clones == [] then ManagedMirror(mirror)
    else if IsUsable(lists, clones[0]) then KnownClone(clones[0].0)
    else Chosen(lists, clones[1..], mirror)
  }

  /** A clone is chosen exactly when it is there and has what is asked for, and no clone before it has. */
  lemma {:induction false} ChosenIsFirst(lists: Lists, clones: seq<(Path, bool)>, mirror: Path, k: nat)
    requires k <= |clones| && forall i | 0 <= i < k :: !clones[i].1 || KnownClone(clones[i].0) !in lists
    ensures k < |clones| && clones[k].1 && KnownClone(clones[k].0) in lists ==>
              Chosen(lists, clones, mirror) == KnownClone(clones[k].0)
    ensures k == |clones| ==> Chosen(lists, clones, mirror) == ManagedMirror(mirror)
  {
    if k > 0 {
      ChosenIsFirst(lists, clones[1..], mirror, k - 1);
    }
  }

  /** The lists once the chosen repository exists: a missing mirror is made, a clone is there already. */
  function WithSource(lists: Lists, source: Source): Lists {
    if source in lists then lists else lists[source := {}]
  }

  lemma {:induction false} ChosenExists(lists: Lists, clones: seq<(Path, bool)>, mirror: Path)
    ensures Chosen(lists, clones, mirror).KnownClone? ==> Chosen(lists, clones, mirror) in lists
  {
    if clones != [] {
      ChosenExists(lists, clones[1..], mirror);
    }
  }

  lemma {:induction false} NotRegistered(registry: seq<Record>, disk: Disk, id: string)
    requires Recorded(registry, disk) && Find(registry, id).None?
    ensures !IsRegistered(registry, WorktreePath(id))
  {
    forall r | r in registry ensures r.path != WorktreePath(id) {
      assert InPlace(r, disk);
      WorktreePathIsManaged(r.id, id);
      if r.id == id {
        PresentIsFound(registry, r);
      }
    }
  }

  lemma {:induction false} PresentIsFound(registry: seq<Record>, record: Record)
    requires record in registry
    ensures Find(registry, record.id).Some?
  {
    if registry[0].id != record.id {
      var k :| 0 <= k < |registry| && registry[k] == record;
      assert registry[1..][k - 1] == record;
      PresentIsFound(registry[1..], record);
    }
  }

  /** `git status` in a directory: whether it could say anything, and whether it said nothing. */
  datatype StatusReport = Failed | Listed(dirty: bool)

  function Status(tree: Tree): StatusReport {
    if tree.Plain? then Failed else Listed(tree.dirty)
  }

  /* ---- What happened, for the record ---- */

  /** A status check with what it said, a point at which users could act, a worktree added and a directory removed. */
  datatype Event = Checked(path: Path, report: StatusReport) | Users(before: Disk, after: Disk) |
                   Added(path: Path, owner: Source) | Removed(path: Path, tree: Tree)

  type Log = seq<Event>

  function Next(disk: Disk, event: Event): Disk {
    match event
    case Checked(_, _) => disk
    case Users(_, after) => after
    case Added(path, owner) => disk[path := Checkout(owner, false)]
    case Removed(path, _) => disk - {path}
  }

  /** The directories after these events, from none. */
  function Replay(log: Log): Disk {
    if log == [] then map[] else Next(Replay(log[..|log| - 1]), log[|log| - 1])
  }

  predicate Fits(disk: Disk, event: Event) {
    match event
    case Checked(path, report) => path in disk && report == Status(disk[path])
    case Users(before, after) => before == disk && Touched(before, after)
    case Added(path, _) => path !in disk
    case Removed(path, tree) => path in disk && disk[path] == tree && tree.Checkout?
  }

  /** Every event is true of the directories at its time. */
  predicate Truthful(log: Log) {
    forall k | 0 <= k < |log| :: TrueAt(log, k)
  }

  predicate TrueAt(log: Log, k: nat)
    requires k < |log|
  {
    Fits(Replay(log[..k]), log[k])
  }

  lemma ReplayNext(log: Log, k: nat)
    requires k < |log|
    ensures Replay(log[..k + 1]) == Next(Replay(log[..k]), log[k])
  {
    assert log[..k + 1][..k] == log[..k];
  }

  lemma TruthfulSnoc(log: Log, event: Event)
    requires Truthful(log) && Fits(Replay(log), event)
    ensures Truthful(log + [event]) && Replay(log + [event]) == Next(Replay(log), event)
  {
    assert (log + [event])[..|log|] == log;
    forall k | 0 <= k < |log| + 1 ensures TrueAt(log + [event], k) {
      if k < |log| {
        assert TrueAt(log, k) && (log + [event])[..k] == log[..k];
      }
    }
  }

  predicate HoldsDirty(disk: Disk, path: Path) {
    path in disk && disk[path].IsDirty()
  }

  predicate MakesDirty(event: Event, path: Path) {
    event.Users? && !HoldsDirty(event.before, path) && HoldsDirty(event.after, path)
  }

  /** Only users make a worktree dirty: between two moments at which it was not and was, some user wrote to it. */
  lemma {:induction false} WrittenBetween(log: Log, i: nat, k: nat, path: Path)
    requires Truthful(log) && i <= k <= |log| && !HoldsDirty(Replay(log[..i]), path) && HoldsDirty(Replay(log[..k]), path)
    ensures exists j :: i <= j < k && MakesDirty(log[j], path)
  {
    if i < k {
      ReplayNext(log, k - 1);
      assert TrueAt(log, k - 1);
      if HoldsDirty(Replay(log[..k - 1]), path) {
        WrittenBetween(log, i, k - 1, path);
      } else {
        assert MakesDirty(log[k - 1], path);
      }
    }
  }

  /** A removal two steps after a status check of that directory that said nothing; users could act between. */
  predicate GuardedAt(log: Log, k: nat)
    requires k < |log| && IsRemoval(log, k)
  {
    k >= 2 && log[k - 2] == Checked(log[k].path, Listed(false)) && log[k - 1].Users?
  }

  /** What the check and Git's refusal give for one removal. */
  predicate Proper(log: Log, from: nat, k: nat, refuses: bool)
    requires k < |log| && IsRemoval(log, k)
  {
    from + 2 <= k && GuardedAt(log, k) && IsManaged(log[k].path) && (refuses ==> !log[k].tree.IsDirty())
  }

  /** Everything removed since was a worktree under the review directory that the same command had found clean. */
  ghost predicate OnlyChecked(before: Log, after: Log, refuses: bool) {
    before <= after && forall k | |before| <= k < |after| && IsRemoval(after, k) :: Proper(after, |before|, k, refuses)
  }

  predicate NoneRemoved(before: Log, after: Log) {
    before <= after && forall k | |before| <= k < |after| :: !IsRemoval(after, k)
  }

  predicate IsRemoval(log: Log, k: nat)
    requires k < |log|
  {
    log[k].Removed?
  }

  /** No directory removed since has a record. */
  ghost predicate NoneRegistered(before: Log, after: Log, registry: seq<Record>) {
    before <= after &&
    forall k | |before| <= k < |after| && IsRemoval(after, k) :: !IsRegistered(registry, after[k].path)
  }

  /** A tree that a guarded removal takes is dirty exactly when a user wrote to it after the status check, and no other event
      of the whole history has a part in it. */
  lemma DirtyExactlyWhenWritten(log: Log, k: nat)
    requires Truthful(log) && k < |log| && log[k].Removed? && GuardedAt(log, k)
    ensures log[k].path in log[k - 1].before && log[k].path in log[k - 1].after
    ensures log[k].tree.IsDirty() <==> MakesDirty(log[k - 1], log[k].path)
    ensures !log[k].tree.IsDirty() <==> log[k - 1].after[log[k].path] == log[k - 1].before[log[k].path]
  {
    var path := log[k].path;
    ReplayNext(log, k - 2);
    ReplayNext(log, k - 1);
    assert TrueAt(log, k - 2) && TrueAt(log, k - 1) && TrueAt(log, k);
  }

  lemma GuardedLonger(before: Log, after: Log, k: nat)
    requires before <= after && k < |before| && before[k].Removed?
    ensures after[k] == before[k] && (GuardedAt(before, k) ==> GuardedAt(after, k))
  {
    if k >= 2 {
      assert after[k - 1] == before[k - 1] && after[k - 2] == before[k - 2];
    }
  }

  lemma CheckedThenChecked(a: Log, b: Log, c: Log, refuses: bool)
    requires OnlyChecked(a, b, refuses) && OnlyChecked(b, c, refuses)
    ensures OnlyChecked(a, c, refuses)
  {
    forall k | |a| <= k < |c| && IsRemoval(c, k) ensures Proper(c, |a|, k, refuses) {
      if k < |b| {
        assert IsRemoval(b, k);
        GuardedLonger(b, c, k);
      }
    }
  }

  lemma NoneIsChecked(a: Log, b: Log, refuses: bool)
    requires NoneRemoved(a, b)
    ensures OnlyChecked(a, b, refuses)
  {
  }

  lemma AddedRemovesNone(a: Log, b: Log, event: Event)
    requires NoneRemoved(a, b) && !event.Removed?
    ensures NoneRemoved(a, b + [event])
  {
    forall k | |a| <= k < |b| + 1 ensures !IsRemoval(b + [event], k) {
      assert k < |b| ==> !IsRemoval(b, k) && (b + [event])[k] == b[k];
    }
  }

  lemma NoneThenNone(a: Log, b: Log, c: Log)
    requires NoneRemoved(a, b) && NoneRemoved(b, c)
    ensures NoneRemoved(a, c)
  {
    forall k | |a| <= k < |c| ensures !IsRemoval(c, k) {
      if k < |b| {
        assert !IsRemoval(b, k) && b[k] == c[k];
      }
    }
  }

  /** What one attempt at a removal adds: at most one directory, this one, found clean before. */
  ghost predicate OneChecked(before: Log, after: Log, path: Path, refuses: bool) {
    && OnlyChecked(before, after, refuses)
    && (forall k | |before| <= k < |after| && IsRemoval(after, k) :: after[k].path == path)
    && (forall i, j | |before| <= i < |after| && |before| <= j < |after| && IsRemoval(after, i) && IsRemoval(after, j) ::
          i == j)
  }

  lemma NoneIsOne(a: Log, b: Log, path: Path, refuses: bool)
    requires NoneRemoved(a, b)
    ensures OneChecked(a, b, path, refuses)
  {
  }

  lemma NoneThenOne(a: Log, b: Log, c: Log, path: Path, refuses: bool)
    requires NoneRemoved(a, b) && OneChecked(b, c, path, refuses)
    ensures OneChecked(a, c, path, refuses)
  {
    NoneIsChecked(a, b, refuses);
    CheckedThenChecked(a, b, c, refuses);
    assert forall k | |a| <= k < |b| :: !IsRemoval(b, k) && b[k] == c[k];
  }

  lemma OneThenNone(a: Log, b: Log, c: Log, path: Path, refuses: bool)
    requires OneChecked(a, b, path, refuses) && NoneRemoved(b, c)
    ensures OneChecked(a, c, path, refuses)
  {
    NoneIsChecked(b, c, refuses);
    CheckedThenChecked(a, b, c, refuses);
    forall k | |a| <= k < |b| && IsRemoval(c, k) ensures b[k] == c[k] && IsRemoval(b, k) {
    }
  }

  /** The three steps of a removal. */
  lemma CheckedRemoval(a: Log, b: Log, path: Path, users: Event, tree: Tree, refuses: bool)
    requires users.Users? && IsManaged(path) && (refuses ==> !tree.IsDirty())
    requires b == a + [Checked(path, Listed(false)), users, Removed(path, tree)]
    ensures OneChecked(a, b, path, refuses) && Vanished(a, b, path)
  {
    var k := |a| + 2;
    assert b[k] == Removed(path, tree) && b[k - 1] == users && b[k - 2] == Checked(path, Listed(false));
    assert GuardedAt(b, k) && Lacks(b[k], path);
    forall i | |a| <= i < |b| && IsRemoval(b, i) ensures i == k {
    }
  }

  /* ---- What a command has seen ---- */

  /** After this event the path holds no directory. */
  predicate Lacks(event: Event, path: Path) {
    match event
    case Users(_, after) => path !in after
    case Removed(removed, _) => removed == path
    case _ => false
  }

  predicate Holds(event: Event, path: Path) {
    event.Users? && path in event.after
  }

  /** The directory was removed since, or was not there at some boundary. */
  ghost predicate Vanished(before: Log, after: Log, path: Path) {
    before <= after && exists k :: |before| <= k < |after| && Lacks(after[k], path)
  }

  /** The directory was there at some boundary. */
  ghost predicate Seen(before: Log, after: Log, path: Path) {
    before <= after && exists k :: |before| <= k < |after| && Holds(after[k], path)
  }

  predicate Reports(event: Event, path: Path) {
    event.Checked? && event.path == path && event.report != Listed(false)
  }

  /** A status check of the directory failed or had something to say. */
  ghost predicate FoundDirty(before: Log, after: Log, path: Path) {
    before <= after && exists k :: |before| <= k < |after| && Reports(after[k], path)
  }

  /** An unregistered directory is dealt with when it is gone, or was found dirty and left alone. */
  ghost predicate Handled(before: Log, after: Log, path: Path) {
    Vanished(before, after, path) || FoundDirty(before, after, path)
  }

  lemma LaterEvent(a: Log, b: Log, event: Event, path: Path)
    requires a <= b
    ensures Lacks(event, path) ==> Vanished(a, b + [event], path)
    ensures Holds(event, path) ==> Seen(a, b + [event], path)
    ensures Reports(event, path) ==> FoundDirty(a, b + [event], path)
  {
    assert (b + [event])[|b|] == event;
  }

  /** What a status check shows when it is all that happens. */
  lemma CheckSeen(start: Log, before: Log, path: Path, report: StatusReport, refuses: bool)
    requires NoneRemoved(start, before) && report != Listed(false)
    ensures OneChecked(start, before + [Checked(path, report)], path, refuses)
    ensures FoundDirty(start, before + [Checked(path, report)], path)
  {
    var after := before + [Checked(path, report)];
    LaterEvent(start, before, Checked(path, report), path);
    NoneIsOne(before, after, path, refuses);
    NoneThenOne(start, before, after, path, refuses);
  }

  /** A status check that said nothing, a boundary, and perhaps a removal. */
  lemma AttemptSeen(start: Log, before: Log, after: Log, path: Path, disk0: Disk, disk: Disk, removed: bool, refuses: bool)
    requires NoneRemoved(start, before) && IsManaged(path)
    requires removed && path in disk && refuses ==> !disk[path].IsDirty()
    requires after == before + [Checked(path, Listed(false))] + [Users(disk0, disk)] +
                      if removed && path in disk then [Removed(path, disk[path])] else []
    ensures OneChecked(start, after, path, refuses) && (removed ==> Vanished(start, after, path))
  {
    var checked := before + [Checked(path, Listed(false))];
    if removed && path in disk {
      CheckedRemoval(before, after, path, Users(disk0, disk), disk[path], refuses);
      SeenWithin(start, before, after, after, path);
    } else {
      assert after == checked + [Users(disk0, disk)];
      LaterEvent(start, checked, Users(disk0, disk), path);
      NoneIsOne(before, after, path, refuses);
    }
    NoneThenOne(start, before, after, path, refuses);
  }

  /** The directories were these at some boundary. */
  ghost predicate Looked(before: Log, after: Log, disk: Disk) {
    before <= after && exists k :: |before| <= k < |after| && after[k].Users? && after[k].after == disk
  }

  lemma LookedIs(before: Log, after: Log, disk: Disk, path: Path)
    requires Looked(before, after, disk)
    ensures path in disk ==> Seen(before, after, path)
    ensures path !in disk ==> Vanished(before, after, path)
  {
    var k :| |before| <= k < |after| && after[k].Users? && after[k].after == disk;
    assert Holds(after[k], path) || Lacks(after[k], path);
  }

  lemma LookedLonger(before: Log, after: Log, event: Event, disk: Disk)
    requires before <= after
    ensures Looked(before, after, disk) ==> Looked(before, after + [event], disk)
    ensures event.Users? && event.after == disk ==> Looked(before, after + [event], disk)
  {
    if Looked(before, after, disk) {
      var k :| |before| <= k < |after| && after[k].Users? && after[k].after == disk;
      assert (after + [event])[k] == after[k];
    }
    assert (after + [event])[|after|] == event;
  }

  /** What was seen in a part of the log was seen in the whole. */
  lemma SeenWithin(a: Log, b: Log, c: Log, d: Log, path: Path)
    requires a <= b <= c <= d
    ensures Vanished(b, c, path) ==> Vanished(a, d, path)
    ensures Seen(b, c, path) ==> Seen(a, d, path)
    ensures Handled(b, c, path) ==> Handled(a, d, path)
  {
    if Vanished(b, c, path) {
      var k :| |b| <= k < |c| && Lacks(c[k], path);
      assert Lacks(d[k], path);
    }
    if Seen(b, c, path) {
      var k :| |b| <= k < |c| && Holds(c[k], path);
      assert Holds(d[k], path);
    }
    if FoundDirty(b, c, path) {
      var k :| |b| <= k < |c| && Reports(c[k], path);
      assert Reports(d[k], path);
    }
  }
}
