/** The managed worktree pool (crates/git/src/pool.rs). Three stores can disagree: the registry file, the directories on
    disk and each Git repository's own list of linked worktrees. The pool may stop between any two of its commands, and
    users may change, delete or create directories at any such point; the pool lock keeps other pools out. */
module WorktreePool {
  import opened Wrappers
  import opened Ordering
  import opened WorktreeStores
  import opened WorktreeRepair

  /** How an attempt at a removal ended. */
  datatype Outcome = Kept(report: StatusReport) | Interrupted | Refused | Done

  datatype Command = PrepareWorktree(request: Request) | DeleteWorktree(id: string) | RepairWorktrees |
                     RemoveMirror(mirror: Path)

  class RepositoryPool {
    var registry: seq<Record>
    var disk: Disk
    var lists: Lists
    /** Whether `git worktree remove` refuses a dirty worktree by itself. */
    const refuses: bool
    /** All that happened to the directories since the pool was made. */
    ghost var log: Log

    /** A pool that has managed nothing yet, next to some clones without linked worktrees. */
    constructor (clones: Lists, refuses: bool)
      requires forall s | s in clones :: s.KnownClone? && clones[s] == {}
      ensures Valid() && registry == [] && disk == map[] && lists == clones && log == [] && this.refuses == refuses
    {
      registry, disk, lists := [], map[], clones;
      this.refuses := refuses;
      log := [];
    }

    ghost predicate Valid()
      reads this
    {
      Ordered(registry) && Recorded(registry, disk) && Linked(disk, lists) && Truthful(log) && Replay(log) == disk
    }

    /** Users change, delete or create directories. */
    method UsersAct(after: Disk)
      requires Valid() && Touched(disk, after)
      modifies this`disk, this`log
      ensures Valid() && disk == after && log == old(log) + [Users(old(disk), after)]
    {
      TouchedKeeps(registry, disk, after, lists);
      TruthfulSnoc(log, Users(disk, after));
      log := log + [Users(disk, after)];
      disk := after;
    }

    /** A point between two commands. Unless the run is quiet, users act here and the pool may stop for good (a crash, or
        a failing command that had no effect). */
    method Boundary(quiet: bool) returns (stopped: bool)
      requires Valid()
      modifies this`disk, this`log
      ensures Valid() && Touched(old(disk), disk) && log == old(log) + [Users(old(disk), disk)]
      ensures NoneRemoved(old(log), log)
      ensures quiet ==> !stopped && disk == old(disk)
    {
      stopped := false;
      assert Touched(disk, disk);
      if quiet {
        UsersAct(disk);
      } else {
        var after: Disk :| Touched(disk, after);
        UsersAct(after);
        stopped := *;
      }
    }

    /** A boundary in a command that removes nothing. */
    method Wait(quiet: bool, ghost start: Log) returns (stopped: bool)
      requires Valid() && NoneRemoved(start, log)
      modifies this`disk, this`log
      ensures Valid() && Touched(old(disk), disk) && log == old(log) + [Users(old(disk), disk)] && NoneRemoved(start, log)
      ensures quiet ==> !stopped && disk == old(disk)
    {
      stopped := Boundary(quiet);
      NoneThenNone(start, old(log), log);
    }

    /** A boundary in a command that has made at most one attempt at a removal. */
    method Pause(quiet: bool, ghost start: Log, ghost path: Path) returns (stopped: bool)
      requires Valid() && OneChecked(start, log, path, refuses)
      modifies this`disk, this`log
      ensures Valid() && Touched(old(disk), disk) && log == old(log) + [Users(old(disk), disk)]
      ensures OneChecked(start, log, path, refuses)
      ensures quiet ==> !stopped && disk == old(disk)
    {
      stopped := Boundary(quiet);
      OneThenNone(start, old(log), log, path, refuses);
    }

    /** A boundary in an inspection. */
    method Look(quiet: bool, ghost start: Log, ghost looks: seq<Disk>) returns (stopped: bool)
      requires Valid() && NoneRemoved(start, log) && forall d | d in looks :: Looked(start, log, d)
      modifies this`disk, this`log
      ensures Valid() && NoneRemoved(start, log) && forall d | d in looks + [disk] :: Looked(start, log, d)
      ensures quiet ==> !stopped && disk == old(disk)
    {
      stopped := Wait(quiet, start);
      forall d ensures Looked(start, old(log), d) || d == disk ==> Looked(start, log, d) {
        LookedLonger(start, old(log), Users(old(disk), disk), d);
      }
    }

    /** `git status` in a directory. */
    method GitStatus(path: Path) returns (report: StatusReport)
      requires Valid() && path in disk
      modifies this`log
      ensures Valid() && report == Status(disk[path]) && log == old(log) + [Checked(path, report)]
    {
      report := Status(disk[path]);
      TruthfulSnoc(log, Checked(path, report));
      log := log + [Checked(path, report)];
    }

    method Upsert(record: Record)
      requires Ordered(registry)
      modifies this`registry
      ensures Replaced(old(registry), registry, record.id, Some(record))
      ensures forall r | r in registry :: r == record || r in old(registry)
    {
      var k := 0;
      while k < |registry| && registry[k].id != record.id
        invariant 0 <= k <= |registry| && forall i | 0 <= i < k :: registry[i].id != record.id
      {
        k := k + 1;
      }
      FindFirst(registry, k, record.id);
      if k < |registry| {
        forall id ensures Find(registry[k := record], id) == if id == record.id then Some(record) else Find(registry, id) {
          ReplaceAt(registry, k, record, id);
        }
        ReplaceAt(registry, k, record, record.id);
        SortStays(registry[k := record]);
        registry := SortBy(registry[k := record], IdLeq);
      } else {
        SortStays(registry);
        InsertOrdered(record, registry);
        assert (registry + [record])[..|registry|] == registry;
        registry := SortBy(registry + [record], IdLeq);
        forall r | r in registry ensures r == record || r in old(registry) {
          FindMember(registry, r);
          if r.id != record.id {
            Found(old(registry), r.id);
          }
        }
      }
    }

    method Remove(id: string)
      requires Ordered(registry)
      modifies this`registry
      ensures Replaced(old(registry), registry, id, None) && forall r | r in registry :: r in old(registry)
    {
      var k := 0;
      while k < |registry| && registry[k].id != id
        invariant 0 <= k <= |registry| && forall i | 0 <= i < k :: registry[i].id != id
      {
        k := k + 1;
      }
      FindFirst(registry, k, id);
      if k < |registry| {
        forall other
          ensures Find(registry[..k] + registry[k + 1..], other) == if other == id then None else Find(registry, other)
        {
          RemoveAt(registry, k, other);
        }
        RemoveAt(registry, k, id);
        registry := registry[..k] + registry[k + 1..];
      }
    }

    method GitWorktreeAdd(source: Source, path: Path) returns (ok: bool)
      requires Valid() && !IsRegistered(registry, path)
      modifies this`disk, this`lists, this`log
      ensures Valid() && ok == old(Addable(disk, lists, source, path))
      ensures disk == (if ok then old(disk)[path := Checkout(source, false)] else old(disk))
      ensures lists == (if ok then old(lists)[source := old(lists)[source] + {path}] else old(lists))
      ensures log == old(log) + if ok then [Added(path, source)] else []
    {
      ok := Addable(disk, lists, source, path);
      if ok {
        TruthfulSnoc(log, Added(path, source));
        AddedKeeps(registry, disk, lists, source, path);
        log := log + [Added(path, source)];
        disk := disk[path := Checkout(source, false)];
        lists := lists[source := lists[source] + {path}];
      }
    }

    method GitWorktreeRemove(source: Source, path: Path) returns (ok: bool)
      requires Valid()
      modifies this`disk, this`lists, this`log
      ensures Valid() && ok == old(Removable(disk, lists, source, path, refuses))
      ensures disk == (if ok then old(disk) - {path} else old(disk))
      ensures lists == (if ok then old(lists)[source := old(lists)[source] - {path}] else old(lists))
      ensures log == old(log) + (if ok && path in old(disk) then [Removed(path, old(disk)[path])] else [])
    {
      ok := Removable(disk, lists, source, path, refuses);
      if ok {
        RemovedKeeps(registry, disk, lists, source, path);
        if path in disk {
          TruthfulSnoc(log, Removed(path, disk[path]));
          log := log + [Removed(path, disk[path])];
        }
        disk := disk - {path};
        lists := lists[source := lists[source] - {path}];
      }
    }

    method GitWorktreePrune(source: Source)
      requires Valid() && source in lists
      modifies this`lists
      ensures Valid() && lists == old(lists)[source := Pruned(disk, old(lists)[source])]
    {
      ListsKeep(disk, lists, lists[source := Pruned(disk, lists[source])]);
      lists := lists[source := Pruned(disk, lists[source])];
    }

    method Get(id: string) returns (record: Option<Record>)
      ensures record == Find(registry, id)
    {
      var k := 0;
      while k < |registry| && registry[k].id != id
        invariant 0 <= k <= |registry| && forall i | 0 <= i < k :: registry[i].id != id
      {
        k := k + 1;
      }
      FindFirst(registry, k, id);
      record := if k < |registry| then Some(registry[k]) else None;
    }

    /** The first known clone that is usable, else the mirror, which is made if need be. */
    method SelectSource(request: Request) returns (source: Source)
      requires Valid()
      modifies this`lists
      ensures Valid() && source == Chosen(old(lists), request.knownClones, request.mirror) && source in lists
      ensures lists == WithSource(old(lists), source)
    {
      var clones := request.knownClones;
      assert clones[0..] == clones;
      for k := 0 to |clones|
        invariant Chosen(lists, clones[k..], request.mirror) == Chosen(old(lists), clones, request.mirror)
        invariant lists == old(lists)
      {
        assert clones[k..][1..] == clones[k + 1..];
        if IsUsable(lists, clones[k]) {
          return KnownClone(clones[k].0);
        }
      }
      source := ManagedMirror(request.mirror);
      ListsKeep(disk, lists, WithSource(lists, source));
      lists := WithSource(lists, source);
    }

    /** The lists with a worktree of the chosen repository added. */
    ghost function WithWorktree(known: Lists, source: Source, path: Path): Lists
      requires source in known
    {
      known[source := known[source] + {path}]
    }

    /** Chooses a repository, adds the worktree and records it. */
    method Create(request: Request, quiet: bool) returns (r: Result<Record, PoolError>)
      requires Valid() && Find(registry, request.id).None?
      modifies this
      ensures Valid() && NoneRemoved(old(log), log)
      ensures var source := Chosen(old(lists), request.knownClones, request.mirror);
              var path, known := WorktreePath(request.id), WithSource(old(lists), source);
              if r.Ok? then
                && r.value == Record(request.id, request.repository, path, source, request.revision)
                && Replaced(old(registry), registry, request.id, Some(r.value)) && lists == WithWorktree(known, source, path)
                && path !in known[source] && |log| >= 2 && log[|log| - 2] == Added(path, source)
              else
                && registry == old(registry) && (r.error == Stopped || r.error == GitFailed(source, path))
                && if r.error == Stopped then lists in {old(lists), known, WithWorktree(known, source, path)}
                   else lists == known
      ensures quiet && WorktreePath(request.id) !in old(disk) ==>
                var source := Chosen(old(lists), request.knownClones, request.mirror);
                var path, known := WorktreePath(request.id), WithSource(old(lists), source);
                (r.Ok? <==> path !in known[source]) && r != Err(Stopped) &&
                disk == if r.Ok? then old(disk)[path := Checkout(source, false)] else old(disk)
    {
      var target := WorktreePath(request.id);
      NotRegistered(registry, disk, request.id);
      var stopped := Wait(quiet, old(log));
      if stopped {
        return Err(Stopped);
      }
      var source := SelectSource(request);
      stopped := Wait(quiet, old(log));
      if stopped {
        return Err(Stopped);
      }
      ghost var log0 := log;
      var added := GitWorktreeAdd(source, target);
      if !added {
        return Err(GitFailed(source, target));
      }
      AddedRemovesNone(old(log), log0, Added(target, source));
      var record := Record(request.id, request.repository, target, source, request.revision);
      stopped := Register(record, quiet, old(log));
      return if stopped then Err(Stopped) else Ok(record);
    }

    /** Records a worktree that was just added. */
    method Register(record: Record, quiet: bool, ghost start: Log) returns (stopped: bool)
      requires Valid() && NoneRemoved(start, log) && InPlace(record, disk)
      modifies this`registry, this`disk, this`log
      ensures Valid() && NoneRemoved(start, log) && |log| == |old(log)| + 1 && old(log) <= log
      ensures if stopped then registry == old(registry) else Replaced(old(registry), registry, record.id, Some(record))
      ensures quiet ==> !stopped && disk == old(disk)
    {
      stopped := Wait(quiet, start);
      if !stopped {
        ghost var before := registry;
        Upsert(record);
        RecordsKeep(before, registry, disk);
      }
    }

    /** Opens a checkout for a review. Whatever users do, a known id is only looked up, and a new record is for a worktree
        just added to the chosen repository. A run that stops half way leaves at most an unregistered worktree behind. */
    method Prepare(request: Request, quiet: bool) returns (r: Result<Record, PoolError>)
      requires Valid()
      modifies this
      ensures Valid() && NoneRemoved(old(log), log)
      ensures Find(old(registry), request.id).Some? ==>
                var existing := Find(old(registry), request.id).value;
                && registry == old(registry) && disk == old(disk) && lists == old(lists)
                && r == if existing.repository == request.repository && existing.revision == request.revision &&
                           existing.path in old(disk) then Ok(existing) else Err(AlreadyManaged)
      ensures Find(old(registry), request.id).None? && WorktreePath(request.id) in old(disk) ==>
                registry == old(registry) && disk == old(disk) && lists == old(lists) && r == Err(PathExists)
      ensures Find(old(registry), request.id).None? && WorktreePath(request.id) !in old(disk) ==>
                var source := Chosen(old(lists), request.knownClones, request.mirror);
                var path, known := WorktreePath(request.id), WithSource(old(lists), source);
                if r.Ok? then
                  && r.value == Record(request.id, request.repository, path, source, request.revision)
                  && Replaced(old(registry), registry, request.id, Some(r.value))
                  && lists == WithWorktree(known, source, path)
                  && path !in known[source] && |log| >= 2 && log[|log| - 2] == Added(path, source)
                else
                  && registry == old(registry) && (r.error == Stopped || r.error == GitFailed(source, path))
                  && if r.error == Stopped then lists in {old(lists), known, WithWorktree(known, source, path)}
                     else lists == known
      ensures quiet && Find(old(registry), request.id).None? && WorktreePath(request.id) !in old(disk) ==>
                var source := Chosen(old(lists), request.knownClones, request.mirror);
                var path, known := WorktreePath(request.id), WithSource(old(lists), source);
                (r.Ok? <==> path !in known[source]) && r != Err(Stopped) &&
                disk == if r.Ok? then old(disk)[path := Checkout(source, false)] else old(disk)
    {
      var target := WorktreePath(request.id);
      var existing := Get(request.id);
      if existing.Some? {
        Found(registry, request.id);
        if existing.value.repository == request.repository && existing.value.revision == request.revision &&
           existing.value.path in disk {
          return Ok(existing.value);
        }
        return Err(AlreadyManaged);
      }
      if target in disk {
        return Err(PathExists);
      }
      r := Create(request, quiet);
    }

    /** A boundary at which users do anything, or leave the directories like this. */
    method Meet(users: Option<Disk>) returns (stopped: bool)
      requires Valid() && (users.Some? ==> Touched(disk, users.value))
      modifies this`disk, this`log
      ensures Valid() && log == old(log) + [Users(old(disk), disk)]
      ensures users.Some? ==> !stopped && disk == users.value
    {
      stopped := false;
      if users.Some? {
        UsersAct(users.value);
      } else {
        stopped := Boundary(false);
      }
    }

    /** `git status`, and `git worktree remove` if it says nothing. Users act between the two. */
    method RemoveIfClean(source: Source, path: Path, users: Option<Disk>, ghost start: Log) returns (outcome: Outcome)
      requires Valid() && IsManaged(path) && path in disk && NoneRemoved(start, log)
      requires users.Some? ==> Touched(disk, users.value)
      modifies this`disk, this`lists, this`log
      ensures Valid() && lists.Keys == old(lists).Keys && OneChecked(start, log, path, refuses)
      ensures outcome.Kept? <==> !Clean(old(disk), path)
      ensures outcome.Kept? ==> outcome.report == Status(old(disk)[path]) && FoundDirty(start, log, path)
      ensures outcome.Kept? ==> disk == old(disk) && lists == old(lists)
      ensures outcome.Interrupted? ==> users.None?
      ensures !outcome.Done? ==> lists == old(lists)
      ensures outcome.Done? ==> Vanished(start, log, path) && source in old(lists) && path in old(lists)[source] &&
                                lists == old(lists)[source := old(lists)[source] - {path}]
      ensures users.Some? && Clean(old(disk), path) ==>
                var after := users.value;
                && (outcome.Done? <==> Removable(after, old(lists), source, path, refuses))
                && disk == (if outcome.Done? then after - {path} else after)
                && (outcome.Done? && path in after ==> log != [] && log[|log| - 1] == Removed(path, after[path]))
    {
      var status := GitStatus(path);
      if status != Listed(false) {
        CheckSeen(start, old(log), path, status, refuses);
        return Kept(status);
      }
      var stopped := Meet(users);
      ghost var after := disk;
      if stopped {
        AttemptSeen(start, old(log), log, path, old(disk), after, false, refuses);
        return Interrupted;
      }
      var removed := GitWorktreeRemove(source, path);
      AttemptSeen(start, old(log), log, path, old(disk), after, removed, refuses);
      outcome := if removed then Done else Refused;
    }

    /** Prunes the repository a record names and drops the record. */
    method Forget(record: Record, quiet: bool) returns (stopped: bool)
      requires Valid()
      modifies this
      ensures Valid() && NoneRemoved(old(log), log)
      ensures if stopped then registry == old(registry) else Replaced(old(registry), registry, record.id, None)
      ensures forall r | r in registry :: r in old(registry)
      ensures lists.Keys == old(lists).Keys && forall s | s in lists ::
                lists[s] <= old(lists)[s] && (lists[s] == old(lists)[s] || record.source == s)
      ensures quiet ==> !stopped && disk == old(disk)
      ensures quiet ==> lists == if record.source in old(lists)
                                 then old(lists)[record.source := Pruned(disk, old(lists)[record.source])] else old(lists)
    {
      stopped := Boundary(quiet);
      if stopped {
        return;
      }
      if record.source in lists {
        GitWorktreePrune(record.source);
      }
      stopped := Wait(quiet, old(log));
      if stopped {
        return;
      }
      ghost var before := registry;
      Remove(record.id);
      RecordsKeep(before, registry, disk);
    }

    /** Removes a clean review worktree, its metadata and its record; a dirty one is left alone. Whatever users do, the
        record only goes once its directory was removed or not there. */
    method Delete(id: string, quiet: bool) returns (r: Result<Record, PoolError>)
      requires Valid()
      modifies this
      ensures Valid() && OneChecked(old(log), log, WorktreePath(id), refuses)
      ensures Find(old(registry), id).None? ==>
                r == Err(UnknownWorktree) && registry == old(registry) && disk == old(disk) && lists == old(lists)
      ensures if r.Ok? then Find(old(registry), id) == Some(r.value) && Replaced(old(registry), registry, id, None) &&
                            Vanished(old(log), log, WorktreePath(id))
              else registry == old(registry)
      ensures lists.Keys == old(lists).Keys && forall s | s in lists ::
                lists[s] <= old(lists)[s] && (lists[s] == old(lists)[s] || Find(old(registry), id).value.source == s)
      ensures quiet && Find(old(registry), id).Some? && !Clean(old(disk), WorktreePath(id)) ==>
                && r == Err(if old(disk)[WorktreePath(id)].Plain? then StatusFailed else DirtyWorktree)
                && disk == old(disk) && lists == old(lists)
      ensures quiet && Find(old(registry), id).Some? && Clean(old(disk), WorktreePath(id)) ==>
                var record := Find(old(registry), id).value;
                && r.Ok? && disk == old(disk) - {record.path}
                && lists == if record.source in old(lists)
                            then old(lists)[record.source := Pruned(disk, old(lists)[record.source])] else old(lists)
    {
      var found := Get(id);
      if found.None? {
        return Err(UnknownWorktree);
      }
      var record := found.value;
      Found(registry, id);
      assert InPlace(record, disk);
      WorktreePathIsManaged(id, id);
      if !IsManaged(record.path) {
        return Err(UnsafePath);
      }
      var outcome := ClearDirectory(record, quiet);
      match outcome {
        case Kept(report) => return Err(if report.Failed? then StatusFailed else DirtyWorktree);
        case Interrupted => return Err(Stopped);
        case Refused => return Err(GitFailed(record.source, record.path));
        case Done =>
      }
      ghost var log0 := log;
      var stopped := Forget(record, quiet);
      OneThenNone(old(log), log0, log, record.path, refuses);
      SeenWithin(old(log), old(log), log0, log, record.path);
      PrunedWithout(disk, old(lists), record.source, record.path);
      return if stopped then Err(Stopped) else Ok(record);
    }

    /** Removes a record's directory if it is there and clean. */
    method ClearDirectory(record: Record, quiet: bool) returns (outcome: Outcome)
      requires Valid() && record in registry
      modifies this`disk, this`lists, this`log
      ensures Valid() && OneChecked(old(log), log, record.path, refuses)
      ensures lists.Keys == old(lists).Keys && forall s | s in lists ::
                lists[s] == old(lists)[s] || (s == record.source && lists[s] == old(lists)[s] - {record.path})
      ensures outcome.Done? ==> Vanished(old(log), log, record.path)
      ensures !outcome.Done? ==> lists == old(lists)
      ensures quiet ==> if Clean(old(disk), record.path) then outcome.Done? && disk == old(disk) - {record.path}
                        else outcome == Kept(Status(old(disk)[record.path])) && disk == old(disk)
    {
      WorktreePathIsManaged(record.id, record.id);
      assert InPlace(record, disk);
      var stopped := Boundary(quiet);
      NoneIsOne(old(log), log, record.path, refuses);
      if stopped {
        return Interrupted;
      }
      LaterEvent(old(log), old(log), Users(old(disk), disk), record.path);
      if record.path !in disk {
        return Done;
      }
      assert InPlace(record, disk) && IsLinked(record.path, disk, lists);
      outcome := RemoveIfClean(record.source, record.path, if quiet then Some(disk) else None, old(log));
    }

    /** Removes a mirror no record uses and no worktree is linked to. */
    method RemoveUnusedMirror(mirror: Path, quiet: bool) returns (r: Result<(), PoolError>)
      requires Valid()
      modifies this
      ensures Valid() && NoneRemoved(old(log), log) && registry == old(registry)
      ensures lists == if r.Ok? then old(lists) - {ManagedMirror(mirror)} else old(lists)
      ensures ManagedMirror(mirror) in old(lists) && ManagedMirror(mirror) !in lists ==>
                && old(lists)[ManagedMirror(mirror)] == {}
                && (forall record | record in registry :: record.source != ManagedMirror(mirror))
                && (forall p | p in disk :: IsLinked(p, disk, lists))
      ensures var source := ManagedMirror(mirror);
              r == if exists record :: record in registry && record.source == source then Err(MirrorInUse)
                   else if source in old(lists) && old(lists)[source] != {} then Err(MirrorHasWorktrees)
                   else if r.Ok? then Ok(()) else Err(Stopped)
      ensures quiet ==> disk == old(disk) && r != Err(Stopped)
    {
      var source := ManagedMirror(mirror);
      if exists record :: record in registry && record.source == source {
        return Err(MirrorInUse);
      }
      if source !in lists {
        return Ok(());
      }
      if lists[source] != {} {
        return Err(MirrorHasWorktrees);
      }
      var stopped := Boundary(quiet);
      if stopped {
        return Err(Stopped);
      }
      forall p | p in disk ensures IsLinked(p, disk, lists - {source}) {
        assert IsLinked(p, disk, lists);
      }
      lists := lists - {source};
      return Ok(());
    }

    /** Compares the registry with the disk and with Git's lists, one directory and one list at a time, and changes nothing
        itself. A record is missing when its directory was not there at its own look. */
    method InspectOrphans(quiet: bool)
      returns (stopped: bool, missing: seq<Record>, orphans: seq<Orphan>, ghost looks: seq<Disk>)
      requires Valid()
      modifies this`disk, this`log
      ensures Valid() && NoneRemoved(old(log), log)
      ensures !stopped ==> |looks| == |registry| && missing == MissingAt(registry, looks)
      ensures forall d | d in looks :: Looked(old(log), log, d)
      ensures !stopped ==> AllOrphans(registry, lists, orphans) && SortedBy(orphans, OrphanLeq)
      ensures quiet ==> !stopped && disk == old(disk) && missing == Missing(registry, disk)
    {
      missing, orphans, looks := [], [], [];
      for k := 0 to |registry|
        invariant Valid() && NoneRemoved(old(log), log)
        invariant |looks| == k && missing == MissingAt(registry[..k], looks)
        invariant forall d | d in looks :: Looked(old(log), log, d)
        invariant quiet ==> disk == old(disk) && missing == Missing(registry[..k], disk)
      {
        stopped := Look(quiet, old(log), looks);
        if stopped {
          return;
        }
        MissingAtSnoc(registry[..k], registry[k], looks, disk);
        MissingSnoc(registry[..k], registry[k], disk);
        assert registry[..k + 1] == registry[..k] + [registry[k]];
        if registry[k].path !in disk {
          missing := missing + [registry[k]];
        }
        looks := looks + [disk];
      }
      assert registry[..|registry|] == registry;
      var sources := (set r | r in registry :: r.source) + (set s | s in lists && s.ManagedMirror?);
      while sources != {}
        invariant Valid() && NoneRemoved(old(log), log) && (quiet ==> disk == old(disk))
        invariant forall d | d in looks :: Looked(old(log), log, d)
        invariant forall o :: o in orphans <==> IsOrphan(registry, lists, o) && o.source !in sources
        invariant forall o :: multiset(orphans)[o] <= 1
        invariant forall s | s in sources && s in lists :: Inspected(registry, lists, s)
        invariant BySource(orphans) && forall o, s | o in orphans && s in sources :: SourceLeq(o.source, s)
      {
        stopped := Look(quiet, old(log), looks);
        if stopped {
          return;
        }
        FirstSource(sources);
        var source :| IsFirst(source, sources);
        if source in lists {
          orphans := ListOrphans(source, orphans);
        }
        sources := sources - {source};
      }
      SortPermutes(orphans, PathLeq);
      SameMembers(orphans, SortBy(orphans, PathLeq));
      StableSort(orphans);
      orphans := SortBy(orphans, PathLeq);
      stopped := false;
    }

    /** Adds the orphans of one repository. */
    method ListOrphans(source: Source, before: seq<Orphan>) returns (orphans: seq<Orphan>)
      requires Inspected(registry, lists, source) && forall o | o in before :: o.source != source
      requires forall o :: multiset(before)[o] <= 1
      requires BySource(before) && forall o | o in before :: SourceLeq(o.source, source)
      ensures forall o :: o in orphans <==> o in before || (o.source == source && IsOrphan(registry, lists, o))
      ensures (forall o :: multiset(orphans)[o] <= 1) && BySource(orphans)
    {
      orphans := before;
      var paths := lists[source];
      SourceTotal(source, source);
      while paths != {}
        invariant paths <= lists[source]
        invariant forall o :: o in orphans <==>
                    o in before || (o.source == source && IsOrphan(registry, lists, o) && o.path !in paths)
        invariant (forall o :: multiset(orphans)[o] <= 1) && BySource(orphans)
      {
        var path :| path in paths;
        paths := paths - {path};
        if IsManaged(path) && !IsRegistered(registry, path) {
          assert Orphan(source, path) !in orphans;
          forall i | 0 <= i < |orphans| ensures SourceLeq(orphans[i].source, source) {
            assert orphans[i] in orphans;
          }
          orphans := orphans + [Orphan(source, path)];
        }
      }
    }

    /** Prunes and deregisters records whose directory is gone. */
    method RepairMissing(missing: seq<Record>, quiet: bool) returns (stopped: bool)
      requires Valid() && forall r | r in missing :: r in registry
      modifies this
      ensures Valid() && NoneRemoved(old(log), log)
      ensures lists.Keys == old(lists).Keys && forall s | s in lists :: lists[s] <= old(lists)[s]
      ensures forall id :: Find(registry, id) == Find(old(registry), id) || (Find(registry, id).None? && Names(missing, id))
      ensures !stopped ==> forall id :: Find(registry, id) == if Names(missing, id) then None else Find(old(registry), id)
      ensures quiet ==> !stopped && disk == old(disk)
      ensures quiet ==> forall s | s in lists ::
                lists[s] == if Sweeps(missing, s) then Pruned(disk, old(lists)[s]) else old(lists)[s]
    {
      for k := 0 to |missing|
        invariant Valid() && NoneRemoved(old(log), log)
        invariant lists.Keys == old(lists).Keys && forall s | s in lists :: lists[s] <= old(lists)[s]
        invariant forall id :: Find(registry, id) == if Names(missing[..k], id) then None else Find(old(registry), id)
        invariant quiet ==> disk == old(disk)
        invariant quiet ==> forall s | s in lists ::
                    lists[s] == if Sweeps(missing[..k], s) then Pruned(disk, old(lists)[s]) else old(lists)[s]
      {
        var record := missing[k];
        ghost var log0 := log;
        stopped := Forget(record, quiet);
        NoneThenNone(old(log), log0, log);
        if stopped {
          return true;
        }
        forall id ensures Names(missing[..k + 1], id) <==> Names(missing[..k], id) || record.id == id {
          NamesSnoc(missing, k, id);
        }
        NamesSnoc(missing, k, record.id);
      }
      assert missing[..|missing|] == missing;
      return false;
    }

    /** Takes one orphan's directory away if it is clean, or its listing if the directory is gone. */
    method TakeAway(o: Orphan, quiet: bool) returns (outcome: Outcome)
      requires Valid() && IsManaged(o.path) && o.source in lists
      modifies this`disk, this`lists, this`log
      ensures Valid() && OneChecked(old(log), log, o.path, refuses)
      ensures lists == if outcome.Done? then old(lists)[o.source := old(lists)[o.source] - {o.path}] else old(lists)
      ensures (outcome.Kept? ==> FoundDirty(old(log), log, o.path)) && (outcome.Done? ==> Vanished(old(log), log, o.path))
      ensures quiet ==> !outcome.Interrupted? && (outcome.Kept? <==> !Clean(old(disk), o.path))
      ensures quiet && !outcome.Kept? ==> (outcome.Done? <==> old(Removable(disk, lists, o.source, o.path, refuses)))
      ensures quiet ==> disk == if outcome.Done? then old(disk) - {o.path} else old(disk)
    {
      var stopped := Boundary(quiet);
      NoneIsOne(old(log), log, o.path, refuses);
      if stopped {
        return Interrupted;
      }
      LaterEvent(old(log), old(log), Users(old(disk), disk), o.path);
      if o.path in disk {
        outcome := RemoveIfClean(o.source, o.path, if quiet then Some(disk) else None, old(log));
        return;
      }
      outcome := DropListing(o, quiet, old(log));
    }

    /** Drops the listing of an orphan that was found gone. */
    method DropListing(o: Orphan, quiet: bool, ghost start: Log) returns (outcome: Outcome)
      requires Valid() && o.source in lists && o.path !in disk
      requires OneChecked(start, log, o.path, refuses) && Vanished(start, log, o.path)
      modifies this`disk, this`lists, this`log
      ensures Valid() && OneChecked(start, log, o.path, refuses) && Vanished(start, log, o.path)
      ensures lists == if outcome.Done? then old(lists)[o.source := old(lists)[o.source] - {o.path}] else old(lists)
      ensures !outcome.Kept? && (outcome.Interrupted? ==> !quiet)
      ensures quiet ==> disk == old(disk) && (outcome.Done? <==> o.path in old(lists)[o.source])
    {
      var stopped := Pause(quiet, start, o.path);
      SeenWithin(start, start, old(log), log, o.path);
      if stopped {
        return Interrupted;
      }
      assert o.path in disk ==> disk[o.path].Plain?;
      ghost var log0 := log;
      var removed := GitWorktreeRemove(o.source, o.path);
      assert log == log0;
      outcome := if removed then Done else Refused;
    }

    /** Removes one orphan if it is clean or gone. */
    method RemoveOrphan(o: Orphan, quiet: bool) returns (r: Result<(), PoolError>)
      requires Valid() && IsManaged(o.path) && o.source in lists
      modifies this`disk, this`lists, this`log
      ensures Valid() && lists.Keys == old(lists).Keys && forall s | s in lists :: lists[s] <= old(lists)[s]
      ensures OneChecked(old(log), log, o.path, refuses) && (r.Ok? ==> Handled(old(log), log, o.path))
      ensures quiet ==> Turn(o, old(disk), old(lists), disk, lists, r.Ok?, refuses)
      ensures quiet && r.Err? ==> r == Err(GitFailed(o.source, o.path))
    {
      var outcome := TakeAway(o, quiet);
      match outcome {
        case Kept(_) => return Ok(());
        case Interrupted => return Err(Stopped);
        case Refused => return Err(GitFailed(o.source, o.path));
        case Done =>
      }
      ghost var log0 := log;
      var stopped := Pause(quiet, old(log), o.path);
      if stopped {
        return Err(Stopped);
      }
      SeenWithin(old(log), old(log), log0, log, o.path);
      GitWorktreePrune(o.source);
      return Ok(());
    }

    /** Removes the orphans that are clean or gone, and leaves the dirty ones alone. */
    method RemoveOrphans(orphans: seq<Orphan>, quiet: bool, ghost known: seq<Record>)
      returns (r: Result<(), PoolError>, ghost turns: nat)
      requires Valid() && Arranged(orphans) && Unrecorded(orphans, known) && forall o | o in orphans :: o.source in lists
      requires quiet ==> Pending(orphans, 0, disk, disk, lists)
      modifies this`disk, this`lists, this`log
      ensures Valid() && OnlyOrphans(old(log), log, known, refuses)
      ensures lists.Keys == old(lists).Keys && forall s | s in lists :: lists[s] <= old(lists)[s]
      ensures r.Ok? ==> forall o | o in orphans :: Handled(old(log), log, o.path)
      ensures quiet ==> StopsAt(orphans, turns, old(disk), old(lists), disk, lists) && (r.Ok? <==> turns == |orphans|)
    {
      turns := 0;
      if quiet {
        FirstTurn(orphans, disk, lists);
      }
      for k := 0 to |orphans|
        invariant Valid() && OnlyOrphans(old(log), log, known, refuses) && turns == k
        invariant lists.Keys == old(lists).Keys && forall s | s in lists :: lists[s] <= old(lists)[s]
        invariant forall o | o in orphans[..k] :: Handled(old(log), log, o.path)
        invariant quiet ==> Progress(orphans, k, old(disk), old(lists), disk, lists)
      {
        assert orphans[k] in orphans && orphans[..k + 1] == orphans[..k] + [orphans[k]];
        ghost var disk0, lists0, log0 := disk, lists, log;
        var step := RemoveOrphan(orphans[k], quiet);
        if quiet {
          TurnTaken(orphans, k, old(disk), old(lists), disk0, lists0, disk, lists, step.Ok?, refuses);
        }
        OneOrphanMore(old(log), log0, log, orphans[k].path, known, refuses);
        if step.Err? {
          return step, turns;
        }
        forall o | o in orphans[..k + 1] ensures Handled(old(log), log, o.path) {
          SeenWithin(old(log), old(log), log0, log, o.path);
          SeenWithin(old(log), log0, log, log, o.path);
        }
        turns := turns + 1;
      }
      assert orphans[..|orphans|] == orphans;
      return Ok(()), turns;
    }

    /** Drops records whose directory is gone and removes unregistered worktrees that were found clean. Whatever users do
        and wherever the run stops, nothing a record names is removed, and a record only goes if its directory was not there;
        one that ends normally has looked at every record it leaves and dealt with every orphan. An undisturbed repair stops
        before the first orphan that is stuck. It leaves every unregistered managed worktree dirty exactly when the stale
        listings were sweepable; and it does run to its end exactly when the orphans come in a good order and every clean
        directory is its own repository's first. */
    method RepairOrphans(quiet: bool) returns (r: Result<(), PoolError>)
      requires Valid()
      modifies this
      ensures Valid() && OnlyOrphans(old(log), log, old(registry), refuses)
      ensures lists.Keys == old(lists).Keys && forall s | s in lists :: lists[s] <= old(lists)[s]
      ensures forall record | record in registry :: record in old(registry)
      ensures forall record | record in old(registry) && record !in registry :: Vanished(old(log), log, record.path)
      ensures r.Ok? ==> forall record | record in registry :: Seen(old(log), log, record.path)
      ensures r.Ok? ==> forall o | old(IsOrphan(registry, lists, o)) :: Handled(old(log), log, o.path)
      ensures quiet ==> QuietRepair(old(registry), old(disk), old(lists), registry, disk, lists, r.Ok?)
      ensures quiet ==> Missing(registry, disk) == []
      ensures quiet && r.Ok? ==> (Settled(old(registry), registry, disk, lists) <==> old(Sweepable(registry, disk, lists)))
      ensures quiet ==> (r.Ok? <==> old(Repairable(registry, disk, lists)) && old(Yielding(registry, disk, lists)))
    {
      var stopped, missing, orphans, looks := InspectOrphans(quiet);
      ghost var log0 := log;
      NoneThenOrphans(old(log), log, log, old(registry), refuses);
      if stopped {
        return Err(Stopped);
      }
      MissingAreRecords(registry, looks);
      forall d | d in looks, path ensures path in d ==> Seen(old(log), log, path)
        ensures path !in d ==> Vanished(old(log), log, path)
      {
        LookedIs(old(log), log, d, path);
      }
      stopped := RepairMissing(missing, quiet);
      ghost var lists1, log1 := lists, log;
      RecordsSeen(old(registry), registry, missing, !stopped, old(log), log0, log1);
      NoneThenNone(old(log), log0, log);
      NoneThenOrphans(old(log), log, log, old(registry), refuses);
      if stopped {
        return Err(Stopped);
      }
      if quiet {
        PendingAtStart(old(registry), old(disk), old(lists), lists1, orphans);
      }
      ghost var turns;
      r, turns := RemoveOrphans(orphans, quiet, old(registry));
      NoneThenOrphans(old(log), log1, log, old(registry), refuses);
      forall path ensures (Vanished(old(log), log1, path) ==> Vanished(old(log), log, path)) &&
                          (Seen(old(log), log1, path) ==> Seen(old(log), log, path)) &&
                          (Handled(log1, log, path) ==> Handled(old(log), log, path))
      {
        SeenWithin(old(log), old(log), log1, log, path);
        SeenWithin(old(log), log1, log, log, path);
      }
      if quiet {
        QuietlyRepaired(old(registry), old(disk), old(lists), lists1, orphans, turns, registry, disk, lists);
      }
    }

    /** Undisturbed repairs, one after the other, until one ends normally. With enough of them one does exactly if no clean
        directory is left that its own repository does not offer first: each failing repair has at least pruned a repository
        with a listing that was gone, and one in dispute is met again each time. When no record is missing at the start, the
        start decides, and the repositories with a listing that is gone bound the failing repairs. */
    method RepairUntilDone(tries: nat) returns (r: Result<(), PoolError>, runs: nat)
      requires Valid() && tries > 0
      modifies this
      ensures Valid() && 1 <= runs <= tries && (r.Err? ==> runs == tries)
      ensures r.Ok? && runs == 1 <==> old(Repairable(registry, disk, lists)) && old(Yielding(registry, disk, lists))
      ensures tries > |old(lists)| + 1 ==> (r.Ok? <==> Yielding(registry, disk, lists))
      ensures old(Missing(registry, disk)) == [] && !old(Yielding(registry, disk, lists)) ==> r.Err?
      ensures old(Missing(registry, disk)) == [] && old(Yielding(registry, disk, lists)) ==>
                r.Ok? || tries <= |old(GoneSources(registry, disk, lists))|
    {
      ghost var whole := Missing(registry, disk) == [];
      ghost var yielding, gone := Yielding(registry, disk, lists), |GoneSources(registry, disk, lists)|;
      r := RepairOnce();
      runs := 1;
      ghost var n := |lists|;
      SmallerThanKeys(registry, disk, lists);
      while r.Err? && runs < tries
        invariant Valid() && 1 <= runs <= tries && Missing(registry, disk) == []
        invariant r.Ok? && runs == 1 <==> old(Repairable(registry, disk, lists)) && old(Yielding(registry, disk, lists))
        invariant r.Ok? ==> Yielding(registry, disk, lists)
        invariant r.Err? && Yielding(registry, disk, lists) ==> |GoneSources(registry, disk, lists)| + runs <= n + 1
        invariant whole ==> if r.Ok? then yielding else (Yielding(registry, disk, lists) <==> yielding)
        invariant whole && r.Err? && yielding ==> |GoneSources(registry, disk, lists)| + runs <= gone
        decreases tries - runs
      {
        r := RepairOnce();
        runs := runs + 1;
      }
    }

    /** One undisturbed repair and what it does to disputes and to listings that are gone. */
    method RepairOnce() returns (r: Result<(), PoolError>)
      requires Valid()
      modifies this
      ensures Valid() && Missing(registry, disk) == [] && lists.Keys == old(lists).Keys
      ensures r.Ok? <==> old(Repairable(registry, disk, lists)) && old(Yielding(registry, disk, lists))
      ensures r.Ok? ==> Yielding(registry, disk, lists)
      ensures old(Missing(registry, disk)) == [] && r.Err? ==>
                (Yielding(registry, disk, lists) <==> old(Yielding(registry, disk, lists)))
      ensures old(Missing(registry, disk)) == [] && r.Err? && old(Yielding(registry, disk, lists)) ==>
                |GoneSources(registry, disk, lists)| < |old(GoneSources(registry, disk, lists))|
    {
      r := RepairOrphans(true);
      RepairedOnce(old(registry), old(disk), old(lists), registry, disk, lists, r.Ok?);
    }

    /** Preparing again with the same id and pins returns the same checkout and changes nothing more. */
    method PrepareAgain(request: Request) returns (first: Result<Record, PoolError>, second: Result<Record, PoolError>)
      requires Valid()
      modifies this
      ensures Valid() && (first.Ok? ==> second == first)
      ensures first.Ok? && Find(old(registry), request.id).Some? ==>
                registry == old(registry) && disk == old(disk) && lists == old(lists)
    {
      first := Prepare(request, true);
      second := Prepare(request, true);
    }

    /** Deleting a review just prepared takes back all that preparing it did: records and directories are as before, and its
        repository, a new mirror perhaps, lists what it listed as far as that still exists. */
    method PrepareThenDelete(request: Request) returns (prepared: Result<Record, PoolError>, deleted: Result<Record,
        PoolError>)
      requires Valid() && Find(registry, request.id).None?
      modifies this
      ensures Valid()
      ensures prepared.Ok? ==>
                && deleted == prepared && disk == old(disk)
                && (forall id :: Find(registry, id) == Find(old(registry), id))
                && var source, known := prepared.value.source, WithSource(old(lists), prepared.value.source);
                   lists == known[source := Pruned(disk, known[source])]
    {
      prepared := Prepare(request, true);
      deleted := prepared;
      if prepared.Ok? {
        ghost var source, known := prepared.value.source, WithSource(old(lists), prepared.value.source);
        deleted := Delete(request.id, true);
        assert disk == old(disk);
        assert Pruned(disk, known[source] + {WorktreePath(request.id)}) == Pruned(disk, known[source]);
      }
    }

    /** Any run of commands, with users acting before, between and inside them and the pool stopping anywhere: the registry
        keeps each id once and in order, and every directory removed had been found clean by the same command. With Git's own
        refusal no dirty worktree is ever removed. */
    method Run(commands: seq<Command>, quiet: bool)
      requires Valid()
      modifies this
      ensures Valid() && OnlyChecked(old(log), log, refuses)
    {
      for k := 0 to |commands|
        invariant Valid() && OnlyChecked(old(log), log, refuses)
      {
        ghost var log0 := log;
        var _ := Boundary(quiet);
        NoneIsChecked(log0, log, refuses);
        CheckedThenChecked(old(log), log0, log, refuses);
        Execute(commands[k], quiet, old(log));
      }
    }

    method Execute(command: Command, quiet: bool, ghost start: Log)
      requires Valid() && OnlyChecked(start, log, refuses)
      modifies this
      ensures Valid() && OnlyChecked(start, log, refuses)
    {
      ghost var log0 := log;
      match command {
        case PrepareWorktree(request) =>
          var _ := Prepare(request, quiet);
          NoneIsChecked(log0, log, refuses);
        case DeleteWorktree(id) => var _ := Delete(id, quiet);
        case RepairWorktrees => var _ := RepairOrphans(quiet);
        case RemoveMirror(mirror) =>
          var _ := RemoveUnusedMirror(mirror, quiet);
          NoneIsChecked(log0, log, refuses);
      }
      CheckedThenChecked(start, log0, log, refuses);
    }
  }

  /* ---- Where the repair falls short ---- */

  const MIRROR := ManagedMirror("m")
  const CLONE := KnownClone("c")

  /** The pool's mirror and a clone of the same repository both list a path that is gone, and a record names the clone. */
  predicate StaleState(registry: seq<Record>, disk: Disk, lists: Lists, revision: string) {
    var path := WorktreePath("a");
    && registry == [Record("a", "r", path, CLONE, revision)] && disk == map[]
    && lists == map[MIRROR := {path}, CLONE := {path}]
  }

  /** Such a state is repairable, but not sweepable: the repair ends normally and leaves the mirror's listing behind. */
  lemma StaleListingSurvives(registry: seq<Record>, disk: Disk, lists: Lists, revision: string)
    requires StaleState(registry, disk, lists, revision)
    ensures Ordered(registry) && Recorded(registry, disk) && Linked(disk, lists)
    ensures Repairable(registry, disk, lists) && Yielding(registry, disk, lists) && !Sweepable(registry, disk, lists)
  {
    var path := WorktreePath("a");
    var record := Record("a", "r", path, CLONE, revision);
    MissingIs(registry, disk, record);
    assert record in registry && IsRegistered(registry, path);
    forall r | r in Missing(registry, disk) ensures r == record {
      MissingIs(registry, disk, r);
    }
    assert Inspected(registry, lists, MIRROR) && path in lists[MIRROR];
  }

  /** The mirror lists a path whose clean directory belongs to the clone, and no record names the clone. */
  predicate DisputedState(registry: seq<Record>, disk: Disk, lists: Lists) {
    var path := WorktreePath("a");
    registry == [] && disk == map[path := Checkout(CLONE, false)] && lists == map[MIRROR := {path}, CLONE := {path}]
  }

  /** Such a state is repairable and sweepable, but Git refuses to remove the directory through the mirror. */
  lemma DisputedDirectoryStopsTheRepair(registry: seq<Record>, disk: Disk, lists: Lists)
    requires DisputedState(registry, disk, lists)
    ensures Ordered(registry) && Recorded(registry, disk) && Linked(disk, lists)
    ensures Repairable(registry, disk, lists) && Sweepable(registry, disk, lists) && !Yielding(registry, disk, lists)
    ensures Missing(registry, disk) == []
  {
    var path := WorktreePath("a");
    WorktreePathIsManaged("a", "a");
    assert Missing(registry, disk) == [];
    assert IsOrphan(registry, lists, Orphan(MIRROR, path));
    assert !Inspected(registry, lists, CLONE);
  }

  predicate TwoGoneState(registry: seq<Record>, disk: Disk, lists: Lists) {
    registry == [] && disk == map[] && lists.Keys == {MIRROR} && lists[MIRROR] == {WorktreePath("a"), WorktreePath("b")}
  }

  /** Two worktrees of one mirror that no record knows are gone. Removing the first prunes the second, and the repair then
      stops with an error. */
  lemma TwoGoneOrphansStopTheRepair(registry: seq<Record>, disk: Disk, lists: Lists)
    requires TwoGoneState(registry, disk, lists)
    ensures Ordered(registry) && Recorded(registry, disk) && Linked(disk, lists)
    ensures Yielding(registry, disk, lists) && !Repairable(registry, disk, lists)
    ensures Missing(registry, disk) == [] && |GoneSources(registry, disk, lists)| <= 1
  {
    var a, b := Orphan(MIRROR, WorktreePath("a")), Orphan(MIRROR, WorktreePath("b"));
    WorktreePathIsManaged("a", "b");
    WorktreePathIsManaged("b", "a");
    assert "a"[0] != "b"[0];
    forall s | s in GoneSources(registry, disk, lists) ensures s == MIRROR {
      assert ListsGone(registry, disk, lists, s);
    }
    Subset(GoneSources(registry, disk, lists), {MIRROR});
    assert IsOrphan(registry, lists, a) && IsOrphan(registry, lists, b);
    if Leq(a.path, b.path) && Leq(b.path, a.path) {
      LeqAntisymmetric(a.path, b.path);
    }
  }

  /* How such states come about, by the pool's own steps. A run that stops before the record is written has selected a
     repository and added a worktree to it. */

  function Wanted(id: string, clones: seq<(Path, bool)>): Request {
    Request(id, "r", "v", clones, "m")
  }

  /** A preparation that stops just before its record is written. */
  method PrepareAndStop(pool: RepositoryPool, request: Request)
    requires pool.Valid() && pool.registry == [] && WorktreePath(request.id) !in pool.disk
    modifies pool
    ensures pool.Valid() && pool.registry == []
    ensures var source := Chosen(old(pool.lists), request.knownClones, request.mirror);
            var path, known := WorktreePath(request.id), WithSource(old(pool.lists), source);
            path !in known[source] ==>
              && pool.disk == old(pool.disk)[path := Checkout(source, false)]
              && pool.lists == known[source := known[source] + {path}]
  {
    NotRegistered(pool.registry, pool.disk, request.id);
    var source := pool.SelectSource(request);
    var _ := pool.GitWorktreeAdd(source, WorktreePath(request.id));
  }

  lemma {:induction false} WantedSource(lists: Lists, usable: bool)
    ensures Chosen(lists, [("c", usable)], "m") == (if usable && CLONE in lists then CLONE else MIRROR)
    ensures Chosen(lists, [], "m") == MIRROR
  {
    assert [("c", usable)][1..] == [];
  }

  lemma OnlyRecord(registry: seq<Record>, record: Record)
    requires Replaced([], registry, record.id, Some(record))
    ensures registry == [record]
  {
    Found(registry, record.id);
    forall k | 0 <= k < |registry| ensures registry[k] == record {
      assert registry[k] in registry;
      FindMember(registry, registry[k]);
    }
  }

  /** A preparation in the mirror stops and its directory is deleted. */
  method PrepareInMirrorAndDelete() returns (pool: RepositoryPool)
    ensures fresh(pool) && pool.Valid() && pool.registry == [] && pool.disk == map[]
    ensures pool.lists == map[MIRROR := {WorktreePath("a")}, CLONE := {}]
  {
    var clones: Lists := map[CLONE := {}];
    pool := new RepositoryPool(clones, true);
    WantedSource(clones, false);
    PrepareAndStop(pool, Wanted("a", [("c", false)]));
    ghost var path: Path := WorktreePath("a");
    assert {} + {path} == {path};
    assert clones[MIRROR := {}][MIRROR := {path}] == map[MIRROR := {path}, CLONE := {}];
    pool.UsersAct(map[]);
  }

  /** Then the clone is used, and its worktree deleted as well. The repair ends normally and leaves the mirror's listing. */
  method StaleListingHistory() returns (pool: RepositoryPool, r: Result<(), PoolError>)
    ensures r.Ok? && !Settled([Record("a", "r", WorktreePath("a"), CLONE, "v")], pool.registry, pool.disk, pool.lists)
  {
    pool := PrepareInMirrorAndDelete();
    WantedSource(pool.lists, true);
    var prepared := pool.Prepare(Wanted("a", [("c", true)]), true);
    OnlyRecord(pool.registry, prepared.value);
    ghost var path: Path := WorktreePath("a");
    assert {} + {path} == {path};
    assert pool.lists == map[MIRROR := {path}, CLONE := {path}];
    pool.UsersAct(map[]);
    StaleListingSurvives(pool.registry, pool.disk, pool.lists, "v");
    r := pool.RepairOrphans(true);
  }

  /** Then the clone is used, and this preparation stops too. However often it is tried, the repair ends with an error. */
  method DisputedHistory(tries: nat) returns (pool: RepositoryPool, r: Result<(), PoolError>)
    requires tries > 0
    ensures r.Err?
  {
    pool := PrepareInMirrorAndDelete();
    WantedSource(pool.lists, true);
    PrepareAndStop(pool, Wanted("a", [("c", true)]));
    ghost var path: Path := WorktreePath("a");
    assert {} + {path} == {path};
    assert pool.lists == map[MIRROR := {path}, CLONE := {path}];
    DisputedDirectoryStopsTheRepair(pool.registry, pool.disk, pool.lists);
    var runs;
    r, runs := pool.RepairUntilDone(tries);
  }

  /** Two preparations in one mirror stop, and both directories are deleted. The repair ends with an error, and a second one
      ends normally. */
  method TwoGoneHistory() returns (pool: RepositoryPool, r: Result<(), PoolError>, runs: nat)
    ensures r.Ok? && runs == 2
  {
    var clones: Lists := map[];
    pool := new RepositoryPool(clones, true);
    WantedSource(pool.lists, false);
    PrepareAndStop(pool, Wanted("a", []));
    DifferentPaths();
    WantedSource(pool.lists, false);
    PrepareAndStop(pool, Wanted("b", []));
    pool.UsersAct(map[]);
    TwoGoneOrphansStopTheRepair(pool.registry, pool.disk, pool.lists);
    r, runs := pool.RepairUntilDone(2);
  }

  lemma DifferentPaths()
    ensures WorktreePath("a") != WorktreePath("b")
  {
    assert "a"[0] != "b"[0];
    WorktreePathIsManaged("a", "b");
  }

  /** Without Git's refusal a write just after the status check of a removal is lost: the check alone does not keep dirty
      worktrees. */
  method LateWriteIsLost() returns (pool: RepositoryPool, outcome: Outcome)
    ensures outcome == Done && |pool.log| > 0
    ensures pool.log[|pool.log| - 1] == Removed(WorktreePath("a"), Checkout(MIRROR, true))
  {
    var path, clones: Lists := WorktreePath("a"), map[];
    pool := new RepositoryPool(clones, false);
    WantedSource(pool.lists, false);
    var prepared := pool.Prepare(Wanted("a", []), true);
    var written: Disk := map[path := Checkout(MIRROR, true)];
    outcome := pool.RemoveIfClean(MIRROR, path, Some(written), pool.log);
  }
}
