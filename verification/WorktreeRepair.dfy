/** What a repair of the worktree pool does (`repair_orphans` in crates/git/src/pool.rs), on values: the orphans it works
    through, one turn after the other, where an undisturbed one stops, what it leaves, and what repeating it achieves. */
module WorktreeRepair {
  import opened Wrappers
  import opened Ordering
  import opened WorktreeStores

  /* ---- Orphans ---- */

  function Missing(registry: seq<Record>, disk: Disk): seq<Record> {
    if registry == [] then []
    else (if registry[0].path in disk then [] else [registry[0]]) + Missing(registry[1..], disk)
  }

  /** Repositories whose lists are looked at: every mirror, and the clones some record names. */
  predicate Inspected(registry: seq<Record>, lists: Lists, source: Source) {
    source in lists && (source.ManagedMirror? || exists r :: r in registry && r.source == source)
  }

  /** A listed worktree under the review directory that no record knows. */
  predicate IsOrphan(registry: seq<Record>, lists: Lists, o: Orphan) {
    && Inspected(registry, lists, o.source) && o.path in lists[o.source]
    && IsManaged(o.path) && !IsRegistered(registry, o.path)
  }

  predicate PathLeq(a: Orphan, b: Orphan) {
    Leq(a.path, b.path)
  }

  /** By path, and for one path in the order of the repositories. */
  predicate OrphanLeq(a: Orphan, b: Orphan) {
    Below(a.path, b.path) || (a.path == b.path && SourceLeq(a.source, b.source))
  }

  lemma BelowTransitive(a: string, b: string, c: string)
    requires Below(a, b) && Below(b, c)
    ensures Below(a, c)
  {
    LeqTransitive(a, b, c);
    if a == c {
      LeqAntisymmetric(a, b);
    }
  }

  lemma OrphanLeqOrders()
    ensures TotalPreorder(OrphanLeq)
  {
    forall a: Orphan, b: Orphan ensures OrphanLeq(a, b) || OrphanLeq(b, a) {
      LeqTotal(a.path, b.path);
      SourceTotal(a.source, b.source);
    }
    forall a: Orphan, b: Orphan, c: Orphan | OrphanLeq(a, b) && OrphanLeq(b, c) ensures OrphanLeq(a, c) {
      if a.path != b.path && b.path != c.path {
        BelowTransitive(a.path, b.path, c.path);
      } else if a.path == b.path == c.path {
        SourceTransitive(a.source, b.source, c.source);
      }
    }
  }

  /** Listed repository by repository. */
  ghost predicate BySource(orphans: seq<Orphan>) {
    forall i, j | 0 <= i < j < |orphans| :: SourceLeq(orphans[i].source, orphans[j].source)
  }

  lemma {:induction false} StableInsert(o: Orphan, orphans: seq<Orphan>)
    requires SortedBy(orphans, OrphanLeq) && forall x | x in orphans :: SourceLeq(x.source, o.source)
    ensures SortedBy(InsertBy(o, orphans, PathLeq), OrphanLeq)
  {
    if orphans == [] {
    } else if !PathLeq(orphans[0], o) {
      LeqTotal(orphans[0].path, o.path);
      LeqReflexive(o.path);
      assert ([o] + orphans)[1..] == orphans;
    } else {
      StableInsert(o, orphans[1..]);
      var rest := InsertBy(o, orphans[1..], PathLeq);
      assert ([orphans[0]] + rest)[1..] == rest;
      assert rest[0] == o || rest[0] == orphans[1];
    }
  }

  /** Sorting by path keeps the order of the repositories for equal paths. */
  lemma {:induction false} StableSort(orphans: seq<Orphan>)
    requires BySource(orphans)
    ensures SortedBy(SortBy(orphans, PathLeq), OrphanLeq)
    decreases |orphans|
  {
    if orphans != [] {
      var init, last := orphans[..|orphans| - 1], orphans[|orphans| - 1];
      StableSort(init);
      SortPermutes(init, PathLeq);
      SameMembers(SortBy(init, PathLeq), init);
      forall x | x in SortBy(init, PathLeq) ensures SourceLeq(x.source, last.source) {
        var i :| 0 <= i < |init| && init[i] == x;
        assert orphans[i] == x;
      }
      StableInsert(last, SortBy(init, PathLeq));
    }
  }

  /** Exactly the orphans, each once. */
  ghost predicate AllOrphans(registry: seq<Record>, lists: Lists, orphans: seq<Orphan>) {
    && (forall o :: o in orphans <==> IsOrphan(registry, lists, o))
    && (forall o :: multiset(orphans)[o] <= 1)
  }

  lemma Together(a: seq<Record>, b: seq<Record>, c: seq<Record>)
    ensures a + (b + c) == (a + b) + c
  {
  }

  lemma {:induction false} MissingSnoc(registry: seq<Record>, record: Record, disk: Disk)
    ensures Missing(registry + [record], disk) == Missing(registry, disk) + if record.path in disk then [] else [record]
  {
    if registry == [] {
      assert (registry + [record])[1..] == [];
    } else {
      assert (registry + [record])[1..] == registry[1..] + [record];
      MissingSnoc(registry[1..], record, disk);
      Together(if registry[0].path in disk then [] else [registry[0]], Missing(registry[1..], disk),
               if record.path in disk then [] else [record]);
    }
  }

  /** The records whose directory was not there, each looked for at its own moment. */
  function MissingAt(registry: seq<Record>, looks: seq<Disk>): seq<Record>
    requires |looks| == |registry|
  {
    if registry == [] then []
    else (if registry[0].path in looks[0] then [] else [registry[0]]) + MissingAt(registry[1..], looks[1..])
  }

  lemma {:induction false} MissingAtSnoc(registry: seq<Record>, record: Record, looks: seq<Disk>, disk: Disk)
    requires |looks| == |registry|
    ensures MissingAt(registry + [record], looks + [disk]) ==
            MissingAt(registry, looks) + if record.path in disk then [] else [record]
  {
    if registry == [] {
      assert (registry + [record])[1..] == [] && (looks + [disk])[1..] == [];
    } else {
      assert (registry + [record])[1..] == registry[1..] + [record] && (looks + [disk])[1..] == looks[1..] + [disk];
      MissingAtSnoc(registry[1..], record, looks[1..], disk);
      Together(if registry[0].path in looks[0] then [] else [registry[0]], MissingAt(registry[1..], looks[1..]),
               if record.path in disk then [] else [record]);
    }
  }

  lemma {:induction false} MissingAreRecords(registry: seq<Record>, looks: seq<Disk>)
    requires |looks| == |registry|
    ensures forall r | r in MissingAt(registry, looks) :: r in registry
    ensures forall r | r in MissingAt(registry, looks) :: exists disk :: disk in looks && r.path !in disk
    ensures forall r | r in registry :: r in MissingAt(registry, looks) || exists disk :: disk in looks && r.path in disk
  {
    if registry != [] {
      MissingAreRecords(registry[1..], looks[1..]);
      assert looks[0] in looks && forall disk | disk in looks[1..] :: disk in looks;
      assert registry == [registry[0]] + registry[1..];
    }
  }

  lemma {:induction false} MissingIs(registry: seq<Record>, disk: Disk, r: Record)
    ensures r in Missing(registry, disk) <==> r in registry && r.path !in disk
  {
    if registry != [] {
      MissingIs(registry[1..], disk, r);
      assert registry == [registry[0]] + registry[1..];
    }
  }

  /** Some record in the list is kept by this repository. */
  predicate Sweeps(missing: seq<Record>, source: Source) {
    exists r :: r in missing && r.source == source
  }

  predicate Names(missing: seq<Record>, id: string) {
    exists r :: r in missing && r.id == id
  }

  lemma NamesSnoc(missing: seq<Record>, k: nat, id: string)
    requires k < |missing|
    ensures Names(missing[..k + 1], id) <==> Names(missing[..k], id) || missing[k].id == id
    ensures forall s :: Sweeps(missing[..k + 1], s) <==> Sweeps(missing[..k], s) || missing[k].source == s
  {
    assert missing[..k + 1] == missing[..k] + [missing[k]];
    assert missing[k] in missing[..k + 1];
    forall s ensures Sweeps(missing[..k + 1], s) <==> Sweeps(missing[..k], s) || missing[k].source == s {
      if Sweeps(missing[..k], s) {
        var r :| r in missing[..k] && r.source == s;
        assert r in missing[..k + 1];
      }
    }
  }

  /** Some orphan in the list is of this repository, and clean or gone. */
  predicate Clears(orphans: seq<Orphan>, disk: Disk, source: Source) {
    exists o :: o in orphans && o.source == source && Clean(disk, o.path)
  }

  lemma ClearsSnoc(orphans: seq<Orphan>, k: nat, disk: Disk, source: Source)
    requires k < |orphans|
    ensures Clears(orphans[..k + 1], disk, source) <==>
            Clears(orphans[..k], disk, source) || (orphans[k].source == source && Clean(disk, orphans[k].path))
  {
    assert orphans[..k + 1] == orphans[..k] + [orphans[k]];
    assert orphans[k] in orphans[..k + 1];
    if Clears(orphans[..k], disk, source) {
      var o :| o in orphans[..k] && o.source == source && Clean(disk, o.path);
      assert o in orphans[..k + 1];
    }
  }

  /** Only clean worktrees are gone from the disk. */
  ghost predicate DiskCleared(disk0: Disk, disk: Disk) {
    && (forall p | p in disk :: p in disk0 && disk[p] == disk0[p])
    && (forall p | p in disk0 && !Clean(disk0, p) :: p in disk)
  }

  /** Where one repository's list stands after some orphans of a quiet repair. */
  ghost predicate ListCleared(orphans: seq<Orphan>, disk0: Disk, source: Source, listed0: set<Path>, listed: set<Path>) {
    && listed <= listed0
    && (if Clears(orphans, disk0, source) then forall p | p in listed :: p in disk0 && disk0[p].Checkout?
        else listed == listed0)
    && (forall o | o in orphans && o.source == source && Clean(disk0, o.path) :: o.path !in listed)
  }

  ghost predicate ListsCleared(orphans: seq<Orphan>, disk0: Disk, lists0: Lists, lists: Lists) {
    lists.Keys == lists0.Keys && forall s | s in lists0 :: ListCleared(orphans, disk0, s, lists0[s], lists[s])
  }

  /** The lists after `git worktree remove` of an orphan and `git worktree prune`. */
  function Dropped(disk: Disk, lists: Lists, o: Orphan): Lists
    requires o.source in lists
  {
    lists[o.source := Pruned(disk - {o.path}, lists[o.source] - {o.path})]
  }

  /** Listings of worktrees that are still there stay. */
  ghost predicate Kept(disk: Disk, lists0: Lists, lists: Lists) {
    && lists.Keys == lists0.Keys
    && forall s, p | s in lists0 && p in lists0[s] && p in disk && disk[p].Checkout? :: p in lists[s]
  }

  lemma ListStep(orphans: seq<Orphan>, k: nat, disk0: Disk, source: Source, listed0: set<Path>, listed: set<Path>)
    requires k < |orphans| && ListCleared(orphans[..k], disk0, source, listed0, listed)
    requires !Clean(disk0, orphans[k].path) || orphans[k].source != source
    ensures ListCleared(orphans[..k + 1], disk0, source, listed0, listed)
  {
    ClearsSnoc(orphans, k, disk0, source);
    assert orphans[..k + 1] == orphans[..k] + [orphans[k]];
  }

  lemma ListDrop(orphans: seq<Orphan>, k: nat, disk0: Disk, listed0: set<Path>, listed: set<Path>, disk: Disk)
    requires k < |orphans| && ListCleared(orphans[..k], disk0, orphans[k].source, listed0, listed)
    requires Clean(disk0, orphans[k].path) && DiskCleared(disk0, disk)
    ensures ListCleared(orphans[..k + 1], disk0, orphans[k].source, listed0, Pruned(disk - {orphans[k].path},
            listed - {orphans[k].path}))
  {
    ClearsSnoc(orphans, k, disk0, orphans[k].source);
    assert orphans[..k + 1] == orphans[..k] + [orphans[k]];
  }

  lemma ListsStep(orphans: seq<Orphan>, k: nat, disk0: Disk, lists0: Lists, disk: Disk, lists: Lists)
    requires k < |orphans| && ListsCleared(orphans[..k], disk0, lists0, lists) && DiskCleared(disk0, disk)
    requires orphans[k].source in lists
    ensures ListsCleared(orphans[..k + 1], disk0, lists0,
                         if Clean(disk0, orphans[k].path) then Dropped(disk, lists, orphans[k]) else lists)
  {
    var after := if Clean(disk0, orphans[k].path) then Dropped(disk, lists, orphans[k]) else lists;
    assert after.Keys == lists0.Keys;
    forall s | s in lists0 ensures ListCleared(orphans[..k + 1], disk0, s, lists0[s], after[s]) {
      if Clean(disk0, orphans[k].path) && orphans[k].source == s {
        ListDrop(orphans, k, disk0, lists0[s], lists[s], disk);
      } else {
        ListStep(orphans, k, disk0, s, lists0[s], lists[s]);
      }
    }
  }

  /** An orphan whose clean directory belongs to another repository, and was not removed as an orphan of that one before. */
  predicate Foreign(orphans: seq<Orphan>, k: nat, disk: Disk)
    requires k < |orphans|
  {
    var o := orphans[k];
    o.path in disk && Clean(disk, o.path) && disk[o.path].owner != o.source &&
    Orphan(disk[o.path].owner, o.path) !in orphans[..k]
  }

  /** An orphan that is gone from the disk and that Git will have forgotten by the time its turn comes. */
  predicate Blocked(orphans: seq<Orphan>, k: nat, disk: Disk, lists: Lists)
    requires k < |orphans|
  {
    orphans[k].path !in disk && orphans[k].source in lists &&
    (orphans[k].path !in lists[orphans[k].source] || Clears(orphans[..k], disk, orphans[k].source))
  }

  /** An orphan that the repair cannot remove when its turn comes. */
  predicate Stuck(orphans: seq<Orphan>, k: nat, disk: Disk, lists: Lists)
    requires k < |orphans|
  {
    Blocked(orphans, k, disk, lists) || Foreign(orphans, k, disk)
  }

  predicate NoneStuck(orphans: seq<Orphan>, n: nat, disk: Disk, lists: Lists)
    requires n <= |orphans|
  {
    forall k | 0 <= k < n :: !Stuck(orphans, k, disk, lists)
  }

  /** The clean orphans still to come are listed, and are on the disk unless the directory went with an earlier orphan. */
  ghost predicate Pending(orphans: seq<Orphan>, k: nat, disk0: Disk, disk: Disk, lists: Lists) {
    forall j | k <= j < |orphans| && orphans[j].path in disk0 && Clean(disk0, orphans[j].path) ::
      && orphans[j].source in lists && orphans[j].path in lists[orphans[j].source]
      && (orphans[j].path in disk || exists i :: 0 <= i < k && i < |orphans| && orphans[i].path == orphans[j].path)
  }

  /** The clean orphans so far are off the disk, and each directory went as an orphan of its own repository. */
  ghost predicate Gone(orphans: seq<Orphan>, k: nat, disk0: Disk, disk: Disk) {
    && (forall i | 0 <= i < k && i < |orphans| && Clean(disk0, orphans[i].path) :: orphans[i].path !in disk)
    && (forall p | p in disk0 && p !in disk && k <= |orphans| ::
          disk0[p].Checkout? && Orphan(disk0[p].owner, p) in orphans[..k])
  }

  lemma OncePair(orphans: seq<Orphan>, i: nat, j: nat)
    requires i < j < |orphans| && forall o :: multiset(orphans)[o] <= 1
    ensures orphans[i] != orphans[j]
  {
    RepeatedCounts(orphans, i, j);
  }

  lemma PendingStep(orphans: seq<Orphan>, k: nat, disk0: Disk, disk: Disk, lists: Lists)
    requires k < |orphans| && Pending(orphans, k, disk0, disk, lists) && SortedBy(orphans, OrphanLeq)
    requires (forall o :: multiset(orphans)[o] <= 1) && orphans[k].source in lists && Clean(disk0, orphans[k].path)
    requires DiskCleared(disk0, disk)
    ensures Pending(orphans, k + 1, disk0, disk - {orphans[k].path}, Dropped(disk, lists, orphans[k]))
  {
    var o := orphans[k];
    forall j | k + 1 <= j < |orphans| && orphans[j].path in disk0 && Clean(disk0, orphans[j].path)
      ensures orphans[j].path in Dropped(disk, lists, o)[orphans[j].source]
      ensures orphans[j].path in disk - {o.path} || exists i :: 0 <= i < k + 1 && orphans[i].path == orphans[j].path
    {
      OncePair(orphans, k, j);
      if orphans[j].path !in disk {
        var i :| 0 <= i < k && orphans[i].path == orphans[j].path;
        SamePathBetween(orphans, i, k, j);
      }
    }
  }

  /** Orphans of one path stand together. */
  lemma SamePathBetween(orphans: seq<Orphan>, i: nat, k: nat, j: nat)
    requires SortedBy(orphans, OrphanLeq) && i <= k <= j < |orphans| && orphans[i].path == orphans[j].path
    ensures orphans[k].path == orphans[j].path
  {
    OrphanLeqOrders();
    SortedPair(orphans, OrphanLeq, i, k);
    SortedPair(orphans, OrphanLeq, k, j);
    if orphans[k].path != orphans[j].path {
      LeqAntisymmetric(orphans[k].path, orphans[j].path);
    }
  }

  lemma GoneStep(orphans: seq<Orphan>, k: nat, disk0: Disk, disk: Disk, removed: bool)
    requires k < |orphans| && Gone(orphans, k, disk0, disk) && DiskCleared(disk0, disk)
    requires removed ==> Clean(disk0, orphans[k].path)
    requires removed && orphans[k].path in disk ==> disk[orphans[k].path].owner == orphans[k].source
    requires !removed ==> !Clean(disk0, orphans[k].path)
    ensures Gone(orphans, k + 1, disk0, if removed then disk - {orphans[k].path} else disk)
  {
    assert orphans[..k + 1] == orphans[..k] + [orphans[k]];
  }

  /** Whether the next orphan can be removed. */
  lemma RemovableWhen(orphans: seq<Orphan>, k: nat, disk0: Disk, lists0: Lists, disk: Disk, lists: Lists, refuses: bool)
    requires k < |orphans| && orphans[k].source in lists && Clean(disk0, orphans[k].path)
    requires Pending(orphans, k, disk0, disk, lists) && Gone(orphans, k, disk0, disk)
    requires DiskCleared(disk0, disk) && ListsCleared(orphans[..k], disk0, lists0, lists)
    ensures Removable(disk, lists, orphans[k].source, orphans[k].path, refuses) <==> !Stuck(orphans, k, disk0, lists0)
  {
    var o := orphans[k];
    assert ListCleared(orphans[..k], disk0, o.source, lists0[o.source], lists[o.source]);
    OwnerStillToCome(orphans, k, disk0, disk);
  }

  lemma OwnerStillToCome(orphans: seq<Orphan>, k: nat, disk0: Disk, disk: Disk)
    requires k < |orphans| && Gone(orphans, k, disk0, disk) && DiskCleared(disk0, disk) && Clean(disk0, orphans[k].path)
    ensures orphans[k].path in disk ==> Orphan(disk0[orphans[k].path].owner, orphans[k].path) !in orphans[..k]
  {
  }

  /** Everything removed since was found clean by the same command and has no record. */
  ghost predicate OnlyOrphans(before: Log, after: Log, registry: seq<Record>, refuses: bool) {
    OnlyChecked(before, after, refuses) && NoneRegistered(before, after, registry)
  }

  lemma OneOrphanMore(a: Log, b: Log, c: Log, path: Path, registry: seq<Record>, refuses: bool)
    requires OnlyOrphans(a, b, registry, refuses) && OneChecked(b, c, path, refuses) && !IsRegistered(registry, path)
    ensures OnlyOrphans(a, c, registry, refuses)
  {
    CheckedThenChecked(a, b, c, refuses);
    forall k | |a| <= k < |c| && IsRemoval(c, k) ensures !IsRegistered(registry, c[k].path) {
      if k < |b| {
        assert IsRemoval(b, k) && b[k] == c[k];
      }
    }
  }

  lemma NoneThenOrphans(a: Log, b: Log, c: Log, registry: seq<Record>, refuses: bool)
    requires NoneRemoved(a, b) && OnlyOrphans(b, c, registry, refuses)
    ensures OnlyOrphans(a, c, registry, refuses)
  {
    NoneIsChecked(a, b, refuses);
    CheckedThenChecked(a, b, c, refuses);
    assert forall k | |a| <= k < |b| :: !IsRemoval(b, k) && b[k] == c[k];
  }

  /** One orphan's turn in a quiet repair: a dirty one is left alone, any other is removed if Git does so. */
  predicate Turn(o: Orphan, disk0: Disk, lists0: Lists, disk: Disk, lists: Lists, ok: bool, refuses: bool)
    requires o.source in lists0
  {
    if !Clean(disk0, o.path) then ok && disk == disk0 && lists == lists0
    else if Removable(disk0, lists0, o.source, o.path, refuses)
    then ok && disk == disk0 - {o.path} && lists == Dropped(disk0, lists0, o)
    else !ok && disk == disk0 && lists == lists0
  }

  ghost predicate AfterTurn(orphans: seq<Orphan>, k: nat, disk0: Disk, lists0: Lists, disk: Disk, lists: Lists)
    requires k <= |orphans|
  {
    DiskCleared(disk0, disk) && ListsCleared(orphans[..k], disk0, lists0, lists) && Kept(disk, lists0, lists) &&
    Pending(orphans, k, disk0, disk, lists) && Gone(orphans, k, disk0, disk)
  }

  lemma PendingSkip(orphans: seq<Orphan>, k: nat, disk0: Disk, disk: Disk, lists: Lists)
    requires k < |orphans| && Pending(orphans, k, disk0, disk, lists)
    ensures Pending(orphans, k + 1, disk0, disk, lists)
  {
  }

  lemma CleanTurn(orphans: seq<Orphan>, k: nat, disk0: Disk, lists0: Lists, disk: Disk, lists: Lists, refuses: bool)
    requires k < |orphans| && orphans[k].source in lists && SortedBy(orphans, OrphanLeq)
    requires (forall o :: multiset(orphans)[o] <= 1) && AfterTurn(orphans, k, disk0, lists0, disk, lists)
    requires Clean(disk0, orphans[k].path) && Removable(disk, lists, orphans[k].source, orphans[k].path, refuses)
    ensures AfterTurn(orphans, k + 1, disk0, lists0, disk - {orphans[k].path}, Dropped(disk, lists, orphans[k]))
  {
    ListsStep(orphans, k, disk0, lists0, disk, lists);
    PendingStep(orphans, k, disk0, disk, lists);
    GoneStep(orphans, k, disk0, disk, true);
  }

  lemma DirtyTurn(orphans: seq<Orphan>, k: nat, disk0: Disk, lists0: Lists, disk: Disk, lists: Lists)
    requires k < |orphans| && orphans[k].source in lists && !Clean(disk0, orphans[k].path)
    requires AfterTurn(orphans, k, disk0, lists0, disk, lists)
    ensures AfterTurn(orphans, k + 1, disk0, lists0, disk, lists) && !Stuck(orphans, k, disk0, lists0)
  {
    ListsStep(orphans, k, disk0, lists0, disk, lists);
    PendingSkip(orphans, k, disk0, disk, lists);
    GoneStep(orphans, k, disk0, disk, false);
  }

  /** Sorted, and each orphan once. */
  ghost predicate Arranged(orphans: seq<Orphan>) {
    SortedBy(orphans, OrphanLeq) && forall o :: multiset(orphans)[o] <= 1
  }

  lemma TurnDecides(orphans: seq<Orphan>, k: nat, disk0: Disk, lists0: Lists, disk: Disk, lists: Lists, disk1: Disk,
                    lists1: Lists, ok: bool, refuses: bool)
    requires k < |orphans| && orphans[k].source in lists && Arranged(orphans)
    requires AfterTurn(orphans, k, disk0, lists0, disk, lists)
    requires Turn(orphans[k], disk, lists, disk1, lists1, ok, refuses)
    ensures ok <==> !Stuck(orphans, k, disk0, lists0)
    ensures ok ==> AfterTurn(orphans, k + 1, disk0, lists0, disk1, lists1)
  {
    assert Clean(disk, orphans[k].path) <==> Clean(disk0, orphans[k].path);
    if Clean(disk0, orphans[k].path) {
      RemovableWhen(orphans, k, disk0, lists0, disk, lists, refuses);
      if ok {
        CleanTurn(orphans, k, disk0, lists0, disk, lists, refuses);
      }
    } else {
      DirtyTurn(orphans, k, disk0, lists0, disk, lists);
    }
  }

  /** Where a quiet repair stands after the first `k` orphans, none of them stuck. */
  ghost predicate Progress(orphans: seq<Orphan>, k: nat, disk0: Disk, lists0: Lists, disk: Disk, lists: Lists) {
    k <= |orphans| && AfterTurn(orphans, k, disk0, lists0, disk, lists) && NoneStuck(orphans, k, disk0, lists0)
  }

  lemma FirstTurn(orphans: seq<Orphan>, disk: Disk, lists: Lists)
    requires Pending(orphans, 0, disk, disk, lists)
    ensures Progress(orphans, 0, disk, lists, disk, lists)
  {
  }

  /** A turn succeeds exactly when the orphan is not stuck. */
  lemma TurnTaken(orphans: seq<Orphan>, k: nat, disk0: Disk, lists0: Lists, disk: Disk, lists: Lists, disk1: Disk,
                  lists1: Lists, ok: bool, refuses: bool)
    requires k < |orphans| && orphans[k].source in lists && Arranged(orphans)
    requires Progress(orphans, k, disk0, lists0, disk, lists)
    requires Turn(orphans[k], disk, lists, disk1, lists1, ok, refuses)
    ensures ok ==> Progress(orphans, k + 1, disk0, lists0, disk1, lists1)
    ensures !ok ==> Stuck(orphans, k, disk0, lists0) && Progress(orphans, k, disk0, lists0, disk1, lists1)
  {
    TurnDecides(orphans, k, disk0, lists0, disk, lists, disk1, lists1, ok, refuses);
  }

  /** A quiet repair stops before its first stuck orphan, or runs to the end. */
  ghost predicate StopsAt(orphans: seq<Orphan>, k: nat, disk0: Disk, lists0: Lists, disk: Disk, lists: Lists) {
    Progress(orphans, k, disk0, lists0, disk, lists) && (k < |orphans| ==> Stuck(orphans, k, disk0, lists0))
  }

  function Cleared(orphans: seq<Orphan>, disk: Disk): set<Path> {
    set o | o in orphans && Clean(disk, o.path) :: o.path
  }

  /** The stores it stops with: without the directories of the clean orphans that had their turn, and with the lists of their
      repositories pruned. */
  ghost predicate HaltedAt(orphans: seq<Orphan>, k: nat, disk0: Disk, lists0: Lists, disk: Disk, lists: Lists) {
    && k <= |orphans| && NoneStuck(orphans, k, disk0, lists0) && (k < |orphans| ==> Stuck(orphans, k, disk0, lists0))
    && disk == disk0 - Cleared(orphans[..k], disk0)
    && lists == map s | s in lists0 :: if Clears(orphans[..k], disk0, s) then Pruned(disk, lists0[s]) else lists0[s]
  }

  lemma DiskHalts(orphans: seq<Orphan>, k: nat, disk0: Disk, disk: Disk)
    requires k <= |orphans| && DiskCleared(disk0, disk) && Gone(orphans, k, disk0, disk)
    ensures disk == disk0 - Cleared(orphans[..k], disk0)
  {
    var cleared := Cleared(orphans[..k], disk0);
    forall p | p in cleared ensures p !in disk {
      var o :| o in orphans[..k] && Clean(disk0, o.path) && o.path == p;
      var i :| 0 <= i < k && orphans[i] == o;
    }
    forall p | p in disk0 && p !in disk ensures p in cleared {
      assert Orphan(disk0[p].owner, p) in orphans[..k];
    }
    assert disk.Keys == (disk0 - cleared).Keys;
  }

  /** A listing of a directory that went is an orphan itself, and had its turn too: orphans of one path stand together, and
      the last of them was not stuck. */
  lemma ListingWent(registry: seq<Record>, initial: Lists, orphans: seq<Orphan>, k: nat, disk0: Disk, lists0: Lists,
                    disk: Disk, s: Source, p: Path)
    requires AllOrphans(registry, initial, orphans) && Arranged(orphans) && k <= |orphans| && Gone(orphans, k, disk0, disk)
    requires k < |orphans| ==> Stuck(orphans, k, disk0, lists0)
    requires p in disk0 && p !in disk && s in initial && p in initial[s] && Inspected(registry, initial, s)
    ensures Orphan(s, p) in orphans[..k]
  {
    var own := Orphan(disk0[p].owner, p);
    assert own in orphans[..k];
    var i :| 0 <= i < k && orphans[i] == own;
    assert own in orphans && IsOrphan(registry, initial, own);
    assert IsOrphan(registry, initial, Orphan(s, p)) && Orphan(s, p) in orphans;
    var j :| 0 <= j < |orphans| && orphans[j] == Orphan(s, p);
    if k <= j {
      SamePathBetween(orphans, i, k, j);
    }
  }

  lemma ListHalts(registry: seq<Record>, initial: Lists, orphans: seq<Orphan>, k: nat, disk0: Disk, lists0: Lists,
                  disk: Disk, lists: Lists, s: Source)
    requires AllOrphans(registry, initial, orphans) && Arranged(orphans) && StopsAt(orphans, k, disk0, lists0, disk, lists)
    requires s in lists0 && s in initial && lists0[s] <= initial[s] && Clears(orphans[..k], disk0, s)
    ensures s in lists && lists[s] == Pruned(disk, lists0[s])
  {
    var one :| one in orphans[..k] && one.source == s && Clean(disk0, one.path);
    assert one in orphans && IsOrphan(registry, initial, one);
    assert ListCleared(orphans[..k], disk0, s, lists0[s], lists[s]);
    forall p | p in lists[s] ensures p in disk {
      if p !in disk {
        ListingWent(registry, initial, orphans, k, disk0, lists0, disk, s, p);
      }
    }
  }

  lemma StoresHalt(registry: seq<Record>, initial: Lists, orphans: seq<Orphan>, k: nat, disk0: Disk, lists0: Lists,
                   disk: Disk, lists: Lists)
    requires AllOrphans(registry, initial, orphans) && Arranged(orphans) && StopsAt(orphans, k, disk0, lists0, disk, lists)
    requires forall s | s in lists0 :: s in initial && lists0[s] <= initial[s]
    ensures HaltedAt(orphans, k, disk0, lists0, disk, lists)
  {
    DiskHalts(orphans, k, disk0, disk);
    assert lists.Keys == lists0.Keys;
    forall s | s in lists0
      ensures lists[s] == if Clears(orphans[..k], disk0, s) then Pruned(disk, lists0[s]) else lists0[s]
    {
      if Clears(orphans[..k], disk0, s) {
        ListHalts(registry, initial, orphans, k, disk0, lists0, disk, lists, s);
      } else {
        assert ListCleared(orphans[..k], disk0, s, lists0[s], lists[s]);
      }
    }
  }

  ghost predicate Unrecorded(orphans: seq<Orphan>, known: seq<Record>) {
    forall o | o in orphans :: IsManaged(o.path) && !IsRegistered(known, o.path)
  }

  /** No managed worktree that is listed but not registered could still be cleared away. */
  ghost predicate Settled(inspected: seq<Record>, registry: seq<Record>, disk: Disk, lists: Lists) {
    forall s, p | Inspected(inspected, lists, s) && p in lists[s] && IsManaged(p) &&
        !IsRegistered(registry, p) :: !Clean(disk, p)
  }

  /** Every stale listing of a missing record's path is at a repository that the repair prunes anyway: one that keeps a
      missing record itself, or one with an orphan that is clean or gone. */
  ghost predicate Sweepable(registry: seq<Record>, disk: Disk, lists: Lists) {
    forall r, s | r in Missing(registry, disk) && Inspected(registry, lists, s) && r.path in lists[s] ::
      Sweeps(Missing(registry, disk), s) || exists p :: IsOrphan(registry, lists, Orphan(s, p)) && Clean(disk, p)
  }

  /** When a quiet repair runs to its end: an orphan that is gone from the disk must come before every other orphan of its
      repository that is cleared, and that repository must not keep a missing record, or `git worktree prune` forgets the
      orphan first and `git worktree remove` then fails. */
  ghost predicate Repairable(registry: seq<Record>, disk: Disk, lists: Lists) {
    forall o | IsOrphan(registry, lists, o) && o.path !in disk ::
      && !Sweeps(Missing(registry, disk), o.source)
      && forall other | IsOrphan(registry, lists, other) && other.source == o.source && other != o &&
          Clean(disk, other.path) ::
           Leq(o.path, other.path)
  }

  /** And a clean directory listed by another repository than its own must be an orphan of its own one too, and that one
      must come earlier: then it is gone when the other's turn comes, and else `git worktree remove` refuses it. */
  ghost predicate Yielding(registry: seq<Record>, disk: Disk, lists: Lists) {
    forall o | IsOrphan(registry, lists, o) && o.path in disk && Clean(disk, o.path) && disk[o.path].owner != o.source ::
      IsOrphan(registry, lists, Orphan(disk[o.path].owner, o.path)) && Earlier(disk[o.path].owner, o.source)
  }

  /** The lists after the missing records have been dealt with. */
  ghost predicate ListsSwept(missing: seq<Record>, disk: Disk, lists0: Lists, lists: Lists) {
    lists.Keys == lists0.Keys &&
    forall s | s in lists :: lists[s] == if Sweeps(missing, s) then Pruned(disk, lists0[s]) else lists0[s]
  }

  lemma BlockedWhen(registry: seq<Record>, disk: Disk, lists0: Lists, lists: Lists, orphans: seq<Orphan>, k: nat)
    requires AllOrphans(registry, lists0, orphans) && SortedBy(orphans, OrphanLeq) && k < |orphans|
    requires ListsSwept(Missing(registry, disk), disk, lists0, lists)
    ensures Repairable(registry, disk, lists0) ==> !Blocked(orphans, k, disk, lists)
  {
    var o := orphans[k];
    assert o in orphans && IsOrphan(registry, lists0, o);
    if Repairable(registry, disk, lists0) && o.path !in disk && Clears(orphans[..k], disk, o.source) {
      var other :| other in orphans[..k] && other.source == o.source && Clean(disk, other.path);
      var i :| 0 <= i < k && orphans[i] == other;
      OncePair(orphans, i, k);
      OrphanLeqOrders();
      SortedPair(orphans, OrphanLeq, i, k);
      assert other in orphans && IsOrphan(registry, lists0, other);
      LeqAntisymmetric(o.path, other.path);
    }
  }

  lemma UnblockedMeans(registry: seq<Record>, disk: Disk, lists0: Lists, lists: Lists, orphans: seq<Orphan>, k: nat, i: nat)
    requires AllOrphans(registry, lists0, orphans) && SortedBy(orphans, OrphanLeq) && k < |orphans| && i < |orphans|
    requires ListsSwept(Missing(registry, disk), disk, lists0, lists)
    requires !Blocked(orphans, k, disk, lists) && orphans[k].path !in disk
    ensures !Sweeps(Missing(registry, disk), orphans[k].source)
    ensures orphans[i].source == orphans[k].source && Clean(disk, orphans[i].path) ==> Leq(orphans[k].path, orphans[i].path)
  {
    assert orphans[k] in orphans && IsOrphan(registry, lists0, orphans[k]);
    if i < k {
      assert orphans[i] in orphans[..k];
    } else {
      OrphanLeqOrders();
      SortedPair(orphans, OrphanLeq, k, i);
      LeqReflexive(orphans[k].path);
    }
  }

  ghost predicate NoneBlocked(orphans: seq<Orphan>, disk: Disk, lists: Lists) {
    forall k | 0 <= k < |orphans| :: !Blocked(orphans, k, disk, lists)
  }

  lemma RepairableWhen(registry: seq<Record>, disk: Disk, lists0: Lists, lists: Lists, orphans: seq<Orphan>)
    requires AllOrphans(registry, lists0, orphans) && SortedBy(orphans, OrphanLeq)
    requires ListsSwept(Missing(registry, disk), disk, lists0, lists)
    ensures NoneBlocked(orphans, disk, lists) <==> Repairable(registry, disk, lists0)
  {
    forall k: nat | k < |orphans| ensures Repairable(registry, disk, lists0) ==> !Blocked(orphans, k, disk, lists) {
      BlockedWhen(registry, disk, lists0, lists, orphans, k);
    }
    if NoneBlocked(orphans, disk, lists) {
      forall o | IsOrphan(registry, lists0, o) && o.path !in disk
        ensures !Sweeps(Missing(registry, disk), o.source)
        ensures forall other | IsOrphan(registry, lists0, other) && other.source == o.source && other != o &&
                Clean(disk, other.path) ::
                  Leq(o.path, other.path)
      {
        var k :| 0 <= k < |orphans| && orphans[k] == o;
        UnblockedMeans(registry, disk, lists0, lists, orphans, k, k);
        forall other | IsOrphan(registry, lists0, other) && other.source == o.source && other != o && Clean(disk, other.path)
          ensures Leq(o.path, other.path)
        {
          var i :| 0 <= i < |orphans| && orphans[i] == other;
          UnblockedMeans(registry, disk, lists0, lists, orphans, k, i);
        }
      }
    }
  }

  ghost predicate NoneForeign(orphans: seq<Orphan>, disk: Disk) {
    forall k | 0 <= k < |orphans| :: !Foreign(orphans, k, disk)
  }

  /** Of two orphans of one path, the one of the earlier repository comes first. */
  lemma OwnerFirst(orphans: seq<Orphan>, k: nat, owner: Source)
    requires SortedBy(orphans, OrphanLeq) && (forall o :: multiset(orphans)[o] <= 1) && k < |orphans|
    requires owner != orphans[k].source
    ensures Orphan(owner, orphans[k].path) in orphans[..k] <==>
            Orphan(owner, orphans[k].path) in orphans && Earlier(owner, orphans[k].source)
  {
    var o := Orphan(owner, orphans[k].path);
    OrphanLeqOrders();
    LeqReflexive(o.path);
    if o in orphans[..k] {
      var i :| 0 <= i < k && orphans[i] == o;
      SortedPair(orphans, OrphanLeq, i, k);
    }
    if o in orphans && Earlier(owner, orphans[k].source) {
      var i :| 0 <= i < |orphans| && orphans[i] == o;
      if i > k {
        SortedPair(orphans, OrphanLeq, k, i);
        SourceAntisymmetric(owner, orphans[k].source);
      }
    }
  }

  lemma YieldingWhen(registry: seq<Record>, disk: Disk, lists: Lists, orphans: seq<Orphan>)
    requires AllOrphans(registry, lists, orphans) && SortedBy(orphans, OrphanLeq)
    ensures NoneForeign(orphans, disk) <==> Yielding(registry, disk, lists)
  {
    forall k: nat | k < |orphans| && orphans[k].path in disk && Clean(disk, orphans[k].path)
      ensures Foreign(orphans, k, disk) <==>
              var owner := disk[orphans[k].path].owner;
              owner != orphans[k].source &&
              !(IsOrphan(registry, lists, Orphan(owner, orphans[k].path)) && Earlier(owner, orphans[k].source))
    {
      if disk[orphans[k].path].owner != orphans[k].source {
        OwnerFirst(orphans, k, disk[orphans[k].path].owner);
      }
    }
    forall o | IsOrphan(registry, lists, o) ensures exists k: nat :: k < |orphans| && orphans[k] == o {
      assert o in orphans;
    }
    forall k: nat | k < |orphans| ensures IsOrphan(registry, lists, orphans[k]) {
      assert orphans[k] in orphans;
    }
  }

  lemma StuckParts(orphans: seq<Orphan>, disk: Disk, lists: Lists)
    ensures NoneStuck(orphans, |orphans|, disk, lists) <==> NoneBlocked(orphans, disk, lists) && NoneForeign(orphans, disk)
  {
    if NoneStuck(orphans, |orphans|, disk, lists) {
      forall k | 0 <= k < |orphans| ensures !Blocked(orphans, k, disk, lists) && !Foreign(orphans, k, disk) {
        assert !Stuck(orphans, k, disk, lists);
      }
    }
  }

  lemma PendingAtStart(registry: seq<Record>, disk: Disk, lists0: Lists, lists: Lists, orphans: seq<Orphan>)
    requires AllOrphans(registry, lists0, orphans) && ListsSwept(Missing(registry, disk), disk, lists0, lists)
    ensures Pending(orphans, 0, disk, disk, lists)
  {
    forall j | 0 <= j < |orphans| && orphans[j].path in disk && Clean(disk, orphans[j].path)
      ensures orphans[j].source in lists && orphans[j].path in lists[orphans[j].source]
    {
      assert orphans[j] in orphans && IsOrphan(registry, lists0, orphans[j]);
    }
  }

  /** An undisturbed repair gets stuck nowhere exactly when both conditions hold. */
  lemma RunsToTheEndWhen(registry: seq<Record>, disk: Disk, lists0: Lists, lists: Lists, orphans: seq<Orphan>)
    requires AllOrphans(registry, lists0, orphans) && SortedBy(orphans, OrphanLeq)
    requires ListsSwept(Missing(registry, disk), disk, lists0, lists)
    ensures NoneStuck(orphans, |orphans|, disk, lists) <==>
            Repairable(registry, disk, lists0) && Yielding(registry, disk, lists0)
  {
    RepairableWhen(registry, disk, lists0, lists, orphans);
    YieldingWhen(registry, disk, lists0, orphans);
    StuckParts(orphans, disk, lists);
  }

  /** What a repair starts from and what it ends with. */
  ghost predicate Repaired(registry0: seq<Record>, disk0: Disk, lists0: Lists, lists1: Lists, orphans: seq<Orphan>,
                           registry: seq<Record>, disk: Disk, lists: Lists)
  {
    && Ordered(registry0) && Recorded(registry0, disk0) && AllOrphans(registry0, lists0, orphans)
    && ListsSwept(Missing(registry0, disk0), disk0, lists0, lists1)
    && DiskCleared(disk0, disk) && ListsCleared(orphans, disk0, lists1, lists)
    && Ordered(registry)
    && forall id :: Find(registry, id) == if Names(Missing(registry0, disk0), id) then None else Find(registry0, id)
  }

  /** The records that are left are those whose directory was there. */
  lemma LeftRecords(registry0: seq<Record>, disk0: Disk, registry: seq<Record>, r: Record)
    requires Ordered(registry0) && Ordered(registry)
    requires forall id :: Find(registry, id) == if Names(Missing(registry0, disk0), id) then None else Find(registry0, id)
    ensures r in registry <==> r in registry0 && r.path in disk0
  {
    MissingIs(registry0, disk0, r);
    if r in registry {
      FindMember(registry, r);
      Found(registry0, r.id);
      assert r.path !in disk0 ==> r in Missing(registry0, disk0);
    }
    if r in registry0 && r.path in disk0 {
      FindMember(registry0, r);
      if Names(Missing(registry0, disk0), r.id) {
        var m :| m in Missing(registry0, disk0) && m.id == r.id;
        MissingIs(registry0, disk0, m);
        FindMember(registry0, m);
      }
      Found(registry, r.id);
    }
  }

  lemma ClearsListed(registry: seq<Record>, lists: Lists, orphans: seq<Orphan>, disk: Disk, s: Source)
    requires AllOrphans(registry, lists, orphans)
    ensures (exists p :: IsOrphan(registry, lists, Orphan(s, p)) && Clean(disk, p)) ==> Clears(orphans, disk, s)
  {
    if p :| IsOrphan(registry, lists, Orphan(s, p)) && Clean(disk, p) {
      assert Orphan(s, p) in orphans;
    }
  }

  lemma SettledIf(registry0: seq<Record>, disk0: Disk, lists0: Lists, lists1: Lists, orphans: seq<Orphan>,
                  registry: seq<Record>, disk: Disk, lists: Lists, s: Source, p: Path)
    requires Repaired(registry0, disk0, lists0, lists1, orphans, registry, disk, lists)
    requires Sweepable(registry0, disk0, lists0)
    requires Inspected(registry0, lists, s) && p in lists[s] && IsManaged(p) && !IsRegistered(registry, p)
    ensures !Clean(disk, p)
  {
    assert ListCleared(orphans, disk0, s, lists1[s], lists[s]);
    if IsRegistered(registry0, p) {
      var r :| r in registry0 && r.path == p;
      LeftRecords(registry0, disk0, registry, r);
      MissingIs(registry0, disk0, r);
      assert p !in disk0;
      ClearsListed(registry0, lists0, orphans, disk0, s);
    } else {
      assert IsOrphan(registry0, lists0, Orphan(s, p));
      assert Orphan(s, p) in orphans;
    }
  }

  lemma SettledOnlyIf(registry0: seq<Record>, disk0: Disk, lists0: Lists, lists1: Lists, orphans: seq<Orphan>,
                      registry: seq<Record>, disk: Disk, lists: Lists, r: Record, s: Source)
    requires Repaired(registry0, disk0, lists0, lists1, orphans, registry, disk, lists)
    requires Settled(registry0, registry, disk, lists)
    requires r in Missing(registry0, disk0) && Inspected(registry0, lists0, s) && r.path in lists0[s]
    requires !Sweeps(Missing(registry0, disk0), s)
    ensures exists p :: IsOrphan(registry0, lists0, Orphan(s, p)) && Clean(disk0, p)
  {
    MissingIs(registry0, disk0, r);
    assert InPlace(r, disk0);
    WorktreePathIsManaged(r.id, r.id);
    assert ListCleared(orphans, disk0, s, lists1[s], lists[s]);
    forall other | other in registry ensures other.path != r.path {
      LeftRecords(registry0, disk0, registry, other);
    }
    if Clears(orphans, disk0, s) {
      var o :| o in orphans && o.source == s && Clean(disk0, o.path);
      assert o == Orphan(s, o.path);
    } else {
      assert r.path in lists[s] && Clean(disk, r.path) && Inspected(registry0, lists, s);
    }
  }

  lemma SettledWhen(registry0: seq<Record>, disk0: Disk, lists0: Lists, lists1: Lists, orphans: seq<Orphan>,
                    registry: seq<Record>, disk: Disk, lists: Lists)
    requires Repaired(registry0, disk0, lists0, lists1, orphans, registry, disk, lists)
    ensures Settled(registry0, registry, disk, lists) <==> Sweepable(registry0, disk0, lists0)
  {
    if Sweepable(registry0, disk0, lists0) {
      forall s, p | Inspected(registry0, lists, s) && p in lists[s] && IsManaged(p) && !IsRegistered(registry, p)
        ensures !Clean(disk, p)
      {
        SettledIf(registry0, disk0, lists0, lists1, orphans, registry, disk, lists, s, p);
      }
    }
    if Settled(registry0, registry, disk, lists) {
      forall r, s | r in Missing(registry0, disk0) && Inspected(registry0, lists0, s) && r.path in lists0[s]
        ensures Sweeps(Missing(registry0, disk0), s) ||
                exists p :: IsOrphan(registry0, lists0, Orphan(s, p)) && Clean(disk0, p)
      {
        if !Sweeps(Missing(registry0, disk0), s) {
          SettledOnlyIf(registry0, disk0, lists0, lists1, orphans, registry, disk, lists, r, s);
        }
      }
    }
  }

  /* ---- What repeating a quiet repair achieves ---- */

  /** A quiet repair, down to the state it leaves: the missing records go and their repositories are pruned, and then the
      orphans have their turns up to the first stuck one. */
  ghost predicate StopsBefore(orphans: seq<Orphan>, k: nat, swept: Lists, registry0: seq<Record>, disk0: Disk, lists0: Lists,
                              registry: seq<Record>, disk: Disk, lists: Lists)
  {
    && AllOrphans(registry0, lists0, orphans) && Arranged(orphans)
    && ListsSwept(Missing(registry0, disk0), disk0, lists0, swept) && HaltedAt(orphans, k, disk0, swept, disk, lists)
    && forall r :: r in registry <==> r in registry0 && r.path in disk0
  }

  ghost predicate QuietRepair(registry0: seq<Record>, disk0: Disk, lists0: Lists, registry: seq<Record>, disk: Disk,
                              lists: Lists, ok: bool)
  {
    exists orphans: seq<Orphan>, k: nat, swept: Lists ::
      StopsBefore(orphans, k, swept, registry0, disk0, lists0, registry, disk, lists) && (ok <==> k == |orphans|)
  }

  /** What the steps of a quiet repair add up to. */
  lemma QuietlyRepaired(registry0: seq<Record>, disk0: Disk, lists0: Lists, swept: Lists, orphans: seq<Orphan>, k: nat,
                        registry: seq<Record>, disk: Disk, lists: Lists)
    requires Ordered(registry0) && Recorded(registry0, disk0) && AllOrphans(registry0, lists0, orphans) && Arranged(orphans)
    requires ListsSwept(Missing(registry0, disk0), disk0, lists0, swept) && StopsAt(orphans, k, disk0, swept, disk, lists)
    requires Ordered(registry)
    requires forall id :: Find(registry, id) == if Names(Missing(registry0, disk0), id) then None else Find(registry0, id)
    ensures StopsBefore(orphans, k, swept, registry0, disk0, lists0, registry, disk, lists)
    ensures Missing(registry, disk) == []
    ensures k == |orphans| <==> Repairable(registry0, disk0, lists0) && Yielding(registry0, disk0, lists0)
    ensures k == |orphans| ==> (Settled(registry0, registry, disk, lists) <==> Sweepable(registry0, disk0, lists0))
  {
    StoresHalt(registry0, lists0, orphans, k, disk0, swept, disk, lists);
    forall r ensures r in registry <==> r in registry0 && r.path in disk0 {
      LeftRecords(registry0, disk0, registry, r);
    }
    NoneMissing(orphans, k, swept, registry0, disk0, lists0, registry, disk, lists);
    RunsToTheEndWhen(registry0, disk0, lists0, swept, orphans);
    if k == |orphans| {
      assert orphans[..k] == orphans;
      SettledWhen(registry0, disk0, lists0, swept, orphans, registry, disk, lists);
    }
  }

  /** What a repair, disturbed or not, has seen of the records it drops and of those it leaves. */
  lemma RecordsSeen(registry0: seq<Record>, registry: seq<Record>, missing: seq<Record>, done: bool, a: Log, b: Log, c: Log)
    requires a <= b <= c && Ordered(registry0) && Ordered(registry)
    requires forall r | r in missing :: r in registry0 && Vanished(a, b, r.path)
    requires forall r | r in registry0 :: r in missing || Seen(a, b, r.path)
    requires forall id :: Find(registry, id) == Find(registry0, id) || (Find(registry, id).None? && Names(missing, id))
    requires done ==> forall id :: Find(registry, id) == if Names(missing, id) then None else Find(registry0, id)
    ensures forall r | r in registry :: r in registry0
    ensures forall r | r in registry0 && r !in registry :: Vanished(a, c, r.path)
    ensures done ==> forall r | r in registry :: Seen(a, c, r.path)
  {
    forall r | r in registry ensures r in registry0 && (done ==> Seen(a, c, r.path)) {
      FindMember(registry, r);
      Found(registry0, r.id);
      SeenWithin(a, a, b, c, r.path);
      assert r in missing ==> Names(missing, r.id);
    }
    forall r | r in registry0 && r !in registry ensures Vanished(a, c, r.path) {
      FindMember(registry0, r);
      if Find(registry, r.id).Some? {
        Found(registry, r.id);
      }
      var m :| m in missing && m.id == r.id;
      FindMember(registry0, m);
      SeenWithin(a, a, b, c, r.path);
    }
  }

  /** Some worktree of this repository that no record knows is gone. */
  ghost predicate ListsGone(registry: seq<Record>, disk: Disk, lists: Lists, source: Source) {
    exists path :: path !in disk && IsOrphan(registry, lists, Orphan(source, path))
  }

  ghost function GoneSources(registry: seq<Record>, disk: Disk, lists: Lists): set<Source> {
    set s | s in lists && ListsGone(registry, disk, lists, s)
  }

  lemma SmallerThanKeys(registry: seq<Record>, disk: Disk, lists: Lists)
    ensures |GoneSources(registry, disk, lists)| <= |lists|
  {
    Subset(GoneSources(registry, disk, lists), lists.Keys);
  }

  lemma Subset(a: set<Source>, b: set<Source>)
    requires a <= b
    ensures |a| <= |b| && (a != b ==> |a| < |b|)
  {
    assert b == a + (b - a) && (a != b ==> b - a != {});
  }

  /** After a quiet repair every record has its directory. */
  lemma NoneMissing(orphans: seq<Orphan>, k: nat, swept: Lists, registry0: seq<Record>, disk0: Disk, lists0: Lists,
                    registry: seq<Record>, disk: Disk, lists: Lists)
    requires StopsBefore(orphans, k, swept, registry0, disk0, lists0, registry, disk, lists)
    ensures Missing(registry, disk) == []
  {
    forall o | o in orphans[..k] ensures !IsRegistered(registry0, o.path) {
      assert o in orphans && IsOrphan(registry0, lists0, o);
    }
    if Missing(registry, disk) != [] {
      MissingIs(registry, disk, Missing(registry, disk)[0]);
    }
  }

  /** With no record missing, the orphans afterwards are those orphans from before that are still listed. */
  lemma OrphansLeft(orphans: seq<Orphan>, k: nat, swept: Lists, registry0: seq<Record>, disk0: Disk, lists0: Lists,
                    registry: seq<Record>, disk: Disk, lists: Lists, o: Orphan)
    requires StopsBefore(orphans, k, swept, registry0, disk0, lists0, registry, disk, lists)
    requires Missing(registry0, disk0) == []
    ensures swept == lists0 && lists.Keys == lists0.Keys
    ensures o.source in lists ==> lists[o.source] <= lists0[o.source]
    ensures IsOrphan(registry, lists, o) <==>
            IsOrphan(registry0, lists0, o) && o.path in lists[o.source]
  {
    forall r | r in registry0 ensures r.path in disk0 {
      MissingIs(registry0, disk0, r);
    }
    assert forall r :: r in registry <==> r in registry0;
    assert forall s :: !Sweeps(Missing(registry0, disk0), s);
  }

  /** A directory goes in the turn of its own repository. */
  lemma ClearedByOwner(orphans: seq<Orphan>, k: nat, disk0: Disk, lists0: Lists, path: Path)
    requires k <= |orphans| && NoneStuck(orphans, k, disk0, lists0) && path in disk0 && path in Cleared(orphans[..k], disk0)
    ensures disk0[path].Checkout? && Orphan(disk0[path].owner, path) in orphans[..k]
  {
    var o :| o in orphans[..k] && Clean(disk0, o.path) && o.path == path;
    var i :| 0 <= i < k && orphans[i] == o;
    assert !Stuck(orphans, i, disk0, lists0) && !Foreign(orphans, i, disk0);
    assert forall x | x in orphans[..i] :: x in orphans[..k];
  }

  /** And every other listing of it has its turn before the repair stops. */
  lemma ClearedEverywhere(orphans: seq<Orphan>, k: nat, disk0: Disk, lists0: Lists, o: Orphan)
    requires Arranged(orphans) && k <= |orphans| && NoneStuck(orphans, k, disk0, lists0)
    requires k < |orphans| ==> Stuck(orphans, k, disk0, lists0)
    requires o in orphans && o.path in disk0 && o.path in Cleared(orphans[..k], disk0)
    ensures o in orphans[..k] && Clean(disk0, o.path)
  {
    ClearedByOwner(orphans, k, disk0, lists0, o.path);
    var i :| 0 <= i < k && orphans[i] == Orphan(disk0[o.path].owner, o.path);
    var j :| 0 <= j < |orphans| && orphans[j] == o;
    if k <= j {
      SamePathBetween(orphans, i, k, j);
    }
  }

  /** The directory of an orphan of another repository that was not removed as its own is still there and still listed. */
  lemma ForeignStays(orphans: seq<Orphan>, k: nat, swept: Lists, registry0: seq<Record>, disk0: Disk, lists0: Lists,
                     registry: seq<Record>, disk: Disk, lists: Lists, o: Orphan)
    requires StopsBefore(orphans, k, swept, registry0, disk0, lists0, registry, disk, lists)
    requires Missing(registry0, disk0) == [] && IsOrphan(registry0, lists0, o)
    requires o.path in disk0 && Clean(disk0, o.path) && Orphan(disk0[o.path].owner, o.path) !in orphans[..k]
    ensures o.path in disk && disk[o.path] == disk0[o.path] && IsOrphan(registry, lists, o)
  {
    if o.path in Cleared(orphans[..k], disk0) {
      ClearedByOwner(orphans, k, disk0, swept, o.path);
    }
    OrphansLeft(orphans, k, swept, registry0, disk0, lists0, registry, disk, lists, o);
  }

  /** A quiet repair neither makes nor ends a dispute over a clean directory, if it stops at all. */
  lemma DisputesStay(orphans: seq<Orphan>, k: nat, swept: Lists, registry0: seq<Record>, disk0: Disk, lists0: Lists,
                     registry: seq<Record>, disk: Disk, lists: Lists)
    requires StopsBefore(orphans, k, swept, registry0, disk0, lists0, registry, disk, lists)
    requires Missing(registry0, disk0) == [] && Linked(disk, lists)
    ensures Yielding(registry0, disk0, lists0) ==> Yielding(registry, disk, lists)
    ensures k < |orphans| && Yielding(registry, disk, lists) ==> Yielding(registry0, disk0, lists0)
  {
    if Yielding(registry0, disk0, lists0) {
      forall o | IsOrphan(registry, lists, o) && o.path in disk && Clean(disk, o.path) && disk[o.path].owner != o.source
        ensures IsOrphan(registry, lists, Orphan(disk[o.path].owner, o.path)) && Earlier(disk[o.path].owner, o.source)
      {
        OrphansLeft(orphans, k, swept, registry0, disk0, lists0, registry, disk, lists, o);
        OrphansLeft(orphans, k, swept, registry0, disk0, lists0, registry, disk, lists, Orphan(disk[o.path].owner, o.path));
      }
    }
    if k < |orphans| && Yielding(registry, disk, lists) {
      forall o | IsOrphan(registry0, lists0, o) && o.path in disk0 && Clean(disk0, o.path) && disk0[o.path].owner != o.source
        ensures IsOrphan(registry0, lists0, Orphan(disk0[o.path].owner, o.path)) && Earlier(disk0[o.path].owner, o.source)
      {
        OwnerYields(orphans, k, swept, registry0, disk0, lists0, registry, disk, lists, o);
      }
    }
  }

  lemma OwnerYields(orphans: seq<Orphan>, k: nat, swept: Lists, registry0: seq<Record>, disk0: Disk, lists0: Lists,
                    registry: seq<Record>, disk: Disk, lists: Lists, o: Orphan)
    requires StopsBefore(orphans, k, swept, registry0, disk0, lists0, registry, disk, lists)
    requires Missing(registry0, disk0) == [] && Yielding(registry, disk, lists)
    requires IsOrphan(registry0, lists0, o) && o.path in disk0 && Clean(disk0, o.path) && disk0[o.path].owner != o.source
    ensures IsOrphan(registry0, lists0, Orphan(disk0[o.path].owner, o.path)) && Earlier(disk0[o.path].owner, o.source)
  {
    var own := Orphan(disk0[o.path].owner, o.path);
    assert o in orphans;
    var j :| 0 <= j < |orphans| && orphans[j] == o;
    OwnerFirst(orphans, j, own.source);
    if own in orphans[..k] {
      assert own in orphans && IsOrphan(registry0, lists0, own);
      if k <= j {
        assert forall x | x in orphans[..k] :: x in orphans[..j];
      } else {
        assert !Stuck(orphans, j, disk0, swept) && !Foreign(orphans, j, disk0);
      }
    } else {
      ForeignStays(orphans, k, swept, registry0, disk0, lists0, registry, disk, lists, o);
      OrphansLeft(orphans, k, swept, registry0, disk0, lists0, registry, disk, lists, own);
    }
  }

  /** No repository comes to list a directory that is gone: one whose directory went was pruned in its turn. */
  lemma GoneStay(orphans: seq<Orphan>, k: nat, swept: Lists, registry0: seq<Record>, disk0: Disk, lists0: Lists,
                 registry: seq<Record>, disk: Disk, lists: Lists, s: Source)
    requires StopsBefore(orphans, k, swept, registry0, disk0, lists0, registry, disk, lists)
    requires Missing(registry0, disk0) == [] && ListsGone(registry, disk, lists, s)
    ensures ListsGone(registry0, disk0, lists0, s) && !Clears(orphans[..k], disk0, s)
  {
    var p :| p !in disk && IsOrphan(registry, lists, Orphan(s, p));
    OrphansLeft(orphans, k, swept, registry0, disk0, lists0, registry, disk, lists, Orphan(s, p));
    assert Orphan(s, p) in orphans;
    if p in disk0 {
      ClearedEverywhere(orphans, k, disk0, swept, Orphan(s, p));
    }
  }

  /** Unless there is a dispute, a repair that stops has at least pruned one repository that listed a directory that is
      gone. */
  lemma GoneShrink(orphans: seq<Orphan>, k: nat, swept: Lists, registry0: seq<Record>, disk0: Disk, lists0: Lists,
                   registry: seq<Record>, disk: Disk, lists: Lists)
    requires StopsBefore(orphans, k, swept, registry0, disk0, lists0, registry, disk, lists)
    requires Missing(registry0, disk0) == [] && Yielding(registry0, disk0, lists0) && k < |orphans|
    ensures |GoneSources(registry, disk, lists)| < |GoneSources(registry0, disk0, lists0)|
  {
    var before, after := GoneSources(registry0, disk0, lists0), GoneSources(registry, disk, lists);
    var o := orphans[k];
    OrphansLeft(orphans, k, swept, registry0, disk0, lists0, registry, disk, lists, o);
    YieldingWhen(registry0, disk0, lists0, orphans);
    assert !Foreign(orphans, k, disk0) && o in orphans && IsOrphan(registry0, lists0, o);
    assert o.source in before;
    forall s | s in after ensures s in before && s != o.source {
      GoneStay(orphans, k, swept, registry0, disk0, lists0, registry, disk, lists, s);
    }
    Subset(after, before);
  }

  /** A repair that ends normally leaves no dispute. */
  lemma NoDisputeLeft(orphans: seq<Orphan>, swept: Lists, registry0: seq<Record>, disk0: Disk, lists0: Lists,
                      registry: seq<Record>, disk: Disk, lists: Lists)
    requires StopsBefore(orphans, |orphans|, swept, registry0, disk0, lists0, registry, disk, lists)
    ensures Yielding(registry, disk, lists)
  {
    assert orphans[..|orphans|] == orphans;
    forall o | IsOrphan(registry, lists, o) && o.path in disk0 && Clean(disk0, o.path) ensures o.path !in disk {
      assert IsOrphan(registry0, lists0, o) && o in orphans;
      assert o.path in Cleared(orphans, disk0);
    }
  }

  /** One quiet repair, seen from its ends. */
  lemma RepairedOnce(registry0: seq<Record>, disk0: Disk, lists0: Lists, registry: seq<Record>, disk: Disk, lists: Lists,
                     ok: bool)
    requires QuietRepair(registry0, disk0, lists0, registry, disk, lists, ok) && Linked(disk, lists)
    ensures ok ==> Yielding(registry, disk, lists)
    ensures Missing(registry0, disk0) == [] && !ok ==>
              (Yielding(registry, disk, lists) <==> Yielding(registry0, disk0, lists0))
    ensures Missing(registry0, disk0) == [] && !ok && Yielding(registry0, disk0, lists0) ==>
              |GoneSources(registry, disk, lists)| < |GoneSources(registry0, disk0, lists0)|
  {
    var orphans: seq<Orphan>, k: nat, swept: Lists :|
      StopsBefore(orphans, k, swept, registry0, disk0, lists0, registry, disk, lists) && (ok <==> k == |orphans|);
    if ok {
      NoDisputeLeft(orphans, swept, registry0, disk0, lists0, registry, disk, lists);
    } else if Missing(registry0, disk0) == [] {
      DisputesStay(orphans, k, swept, registry0, disk0, lists0, registry, disk, lists);
      if Yielding(registry0, disk0, lists0) {
        GoneShrink(orphans, k, swept, registry0, disk0, lists0, registry, disk, lists);
      }
    }
  }
}
