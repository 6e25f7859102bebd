/** Finding the repositories below a workspace root (`discover_repositories` in crates/git/src/lib.rs): a breadth-first walk
    that stops at repositories, over a directory tree that holds still meanwhile. */
module Discovery {
  import opened Wrappers
  import opened Ordering

  datatype Kind = Directory | SymbolicLink | File

  /** A directory entry. A repository is known by the key that its worktrees share. */
  datatype Node = Node(name: string, kind: Kind, repository: Option<string>, children: seq<Node>)

  /** Names from the root down. */
  type Path = seq<string>

  datatype Config = Config(maxDepth: nat, excludedNames: set<string>, excludedPrefixes: seq<Path>)

  datatype Found = Found(path: Path, key: string)

  datatype Visit = Visit(path: Path, node: Node)

  predicate IsExcluded(config: Config, path: Path) {
    exists prefix :: prefix in config.excludedPrefixes && prefix <= path
  }

  /** The walker enters this child of the directory at `path`. */
  predicate IsEntered(config: Config, path: Path, child: Node) {
    child.kind.Directory? && child.name !in config.excludedNames && !IsExcluded(config, path + [child.name])
  }

  /** From the directory at `path`, the walk leads down `rest` to a repository, through no other repository. */
  predicate LeadsTo(config: Config, path: Path, node: Node, rest: Path, key: string)
    decreases |rest|
  {
    node.kind.Directory? &&
    if node.repository.Some? then rest == [] && node.repository.value == key
    else
      && rest != [] && |path| < config.maxDepth
      && exists child :: child in node.children && child.name == rest[0] && IsEntered(config, path, child) &&
                         LeadsTo(config, path + [child.name], child, rest[1..], key)
  }

  /** The topmost repositories in reach of the root. */
  predicate IsTop(config: Config, root: Node, path: Path, key: string) {
    LeadsTo(config, [], root, path, key)
  }

  /** The directories from one at depth `depth` down to a repository: real ones, each a child of the one before it, none of
      them a repository itself, no deeper than the limit, and under no excluded name. */
  predicate Trail(config: Config, depth: nat, path: Path, key: string, nodes: seq<Node>) {
    && |nodes| == |path| + 1 && (path != [] ==> depth + |path| <= config.maxDepth)
    && (forall i | 0 <= i <= |path| :: nodes[i].kind == Directory)
    && (forall i | 0 <= i < |path| ::
          nodes[i].repository == None && nodes[i + 1] in nodes[i].children && nodes[i + 1].name == path[i])
    && (forall i | 0 <= i < |path| :: path[i] !in config.excludedNames)
    && nodes[|path|].repository == Some(key)
  }

  /** A directory is entered when no excluded prefix leads to it. */
  predicate PrefixFree(config: Config, path: Path) {
    forall prefix | prefix in config.excludedPrefixes :: !(prefix <= path)
  }

  lemma TrailCons(config: Config, depth: nat, path: Path, key: string, node: Node, nodes: seq<Node>)
    requires path != [] && depth < config.maxDepth && node.kind.Directory? && node.repository.None?
    requires path[0] !in config.excludedNames
    requires Trail(config, depth + 1, path[1..], key, nodes)
    requires nodes[0] in node.children && nodes[0].name == path[0]
    ensures Trail(config, depth, path, key, [node] + nodes)
  {
    var all := [node] + nodes;
    assert forall i | 0 < i <= |path| :: all[i] == nodes[i - 1];
    assert forall i | 0 < i < |path| :: path[i] == path[1..][i - 1];
  }

  lemma TrailTail(config: Config, depth: nat, path: Path, key: string, nodes: seq<Node>)
    requires path != [] && Trail(config, depth, path, key, nodes)
    ensures Trail(config, depth + 1, path[1..], key, nodes[1..])
  {
    assert forall i | 0 <= i < |path[1..]| :: path[1..][i] == path[i + 1];
    assert forall i | 0 <= i < |nodes[1..]| :: nodes[1..][i] == nodes[i + 1];
  }

  lemma {:induction false} TrailLeads(config: Config, base: Path, rest: Path, key: string, nodes: seq<Node>)
    requires Trail(config, |base|, rest, key, nodes) && (rest != [] ==> PrefixFree(config, base + rest))
    ensures LeadsTo(config, base, nodes[0], rest, key)
    decreases |rest|
  {
    if rest != [] {
      var child := nodes[1];
      TrailTail(config, |base|, rest, key, nodes);
      assert base + [child.name] + rest[1..] == base + rest;
      assert !IsExcluded(config, base + [child.name]) by {
        assert base + [child.name] <= base + rest;
      }
      TrailLeads(config, base + [child.name], rest[1..], key, nodes[1..]);
    }
  }

  lemma {:induction false} LeadsTrail(config: Config, base: Path, node: Node, rest: Path, key: string)
    returns (nodes: seq<Node>)
    requires LeadsTo(config, base, node, rest, key)
    ensures Trail(config, |base|, rest, key, nodes) && nodes[0] == node
    ensures rest != [] ==> PrefixFree(config, base + rest)
    decreases |rest|
  {
    if rest == [] {
      nodes := [node];
    } else {
      var child :| child in node.children && child.name == rest[0] && IsEntered(config, base, child) &&
                   LeadsTo(config, base + [child.name], child, rest[1..], key);
      var below := LeadsTrail(config, base + [child.name], child, rest[1..], key);
      nodes := [node] + below;
      TrailCons(config, |base|, rest, key, node, below);
      assert base + [child.name] + rest[1..] == base + rest;
      if rest[1..] == [] {
        assert base + rest == base + [child.name];
        forall prefix | prefix in config.excludedPrefixes ensures !(prefix <= base + rest) {
          assert !IsExcluded(config, base + [child.name]);
        }
      }
    }
  }

  /** Which repositories are topmost and in reach, told from the tree and the configuration alone. */
  lemma TopWhen(config: Config, root: Node, path: Path, key: string)
    ensures IsTop(config, root, path, key) <==>
            (path != [] ==> forall prefix | prefix in config.excludedPrefixes :: !(prefix <= path)) &&
            exists nodes :: Trail(config, 0, path, key, nodes) && nodes[0] == root
  {
    assert [] + path == path;
    if IsTop(config, root, path, key) {
      var _ := LeadsTrail(config, [], root, path, key);
    }
    if path != [] ==> PrefixFree(config, path) {
      forall nodes | Trail(config, 0, path, key, nodes) && nodes[0] == root ensures IsTop(config, root, path, key) {
        TrailLeads(config, [], path, key, nodes);
      }
    }
  }

  /** Names are unique within a directory. */
  predicate WellFormed(node: Node)
    decreases node
  {
    && (forall i, j | 0 <= i < j < |node.children| :: node.children[i].name != node.children[j].name)
    && (forall child | child in node.children :: WellFormed(child))
  }

  /* ---- The worklist ---- */

  function Size(node: Node): nat
    decreases node, 1
  {
    1 + Sizes(node.children)
  }

  function Sizes(nodes: seq<Node>): nat
    decreases nodes, 0
  {
    if nodes == [] then 0 else Size(nodes[0]) + Sizes(nodes[1..])
  }

  function Work(pending: seq<Visit>): nat {
    if pending == [] then 0 else Size(pending[0].node) + Work(pending[1..])
  }

  /** The children the walker enters, in the order the directory lists them. */
  function Entered(config: Config, path: Path, children: seq<Node>): seq<Visit> {
    if children == [] then []
    else (if IsEntered(config, path, children[0]) then [Visit(path + [children[0].name], children[0])] else []) +
         Entered(config, path, children[1..])
  }

  lemma {:induction false} WorkConcat(a: seq<Visit>, b: seq<Visit>)
    ensures Work(a + b) == Work(a) + Work(b)
  {
    if a == [] {
      assert a + b == b;
    } else {
      assert (a + b)[1..] == a[1..] + b;
      WorkConcat(a[1..], b);
    }
  }

  lemma {:induction false} EnteredWork(config: Config, path: Path, children: seq<Node>)
    ensures Work(Entered(config, path, children)) <= Sizes(children)
  {
    if children != [] {
      var rest := Entered(config, path, children[1..]);
      EnteredWork(config, path, children[1..]);
      if IsEntered(config, path, children[0]) {
        assert ([Visit(path + [children[0].name], children[0])] + rest)[1..] == rest;
      } else {
        assert [] + rest == rest;
      }
    }
  }

  lemma {:induction false} EnteredAre(config: Config, path: Path, children: seq<Node>, v: Visit)
    ensures v in Entered(config, path, children) <==>
            v.node in children && IsEntered(config, path, v.node) && v.path == path + [v.node.name]
  {
    if children != [] {
      EnteredAre(config, path, children[1..], v);
      assert children == [children[0]] + children[1..];
    }
  }

  /** A repository below one of the directories still to be visited. */
  predicate Ahead(config: Config, pending: seq<Visit>, path: Path, key: string) {
    exists v :: v in pending && v.path <= path && LeadsTo(config, v.path, v.node, path[|v.path|..], key)
  }

  lemma AheadConcat(config: Config, a: seq<Visit>, b: seq<Visit>, path: Path, key: string)
    ensures Ahead(config, a + b, path, key) <==> Ahead(config, a, path, key) || Ahead(config, b, path, key)
  {
    if Ahead(config, a, path, key) {
      var v :| v in a && v.path <= path && LeadsTo(config, v.path, v.node, path[|v.path|..], key);
      assert v in a + b;
    }
    if Ahead(config, b, path, key) {
      var v :| v in b && v.path <= path && LeadsTo(config, v.path, v.node, path[|v.path|..], key);
      assert v in a + b;
    }
  }

  /** Replacing a plain directory by the children entered loses no repository and adds none. */
  lemma AheadOfChildren(config: Config, v: Visit, path: Path, key: string)
    requires v.node.kind.Directory? && v.node.repository.None? && |v.path| < config.maxDepth
    ensures Ahead(config, [v], path, key) <==> Ahead(config, Entered(config, v.path, v.node.children), path, key)
  {
    var entered := Entered(config, v.path, v.node.children);
    if Ahead(config, [v], path, key) {
      var rest := path[|v.path|..];
      var child :| child in v.node.children && child.name == rest[0] && IsEntered(config, v.path, child) &&
                   LeadsTo(config, v.path + [child.name], child, rest[1..], key);
      var next := Visit(v.path + [child.name], child);
      EnteredAre(config, v.path, v.node.children, next);
      assert next.path <= path && path[|next.path|..] == rest[1..];
    }
    if Ahead(config, entered, path, key) {
      var w :| w in entered && w.path <= path && LeadsTo(config, w.path, w.node, path[|w.path|..], key);
      EnteredAre(config, v.path, v.node.children, w);
      var rest := path[|v.path|..];
      assert rest[0] == w.node.name && rest[1..] == path[|w.path|..];
      assert LeadsTo(config, v.path, v.node, rest, key);
      assert v in [v];
    }
  }

  /** A repository, or a directory the walk goes no deeper into. */
  lemma AheadOfLeaf(config: Config, v: Visit, path: Path, key: string)
    requires !(v.node.kind.Directory? && v.node.repository.None? && |v.path| < config.maxDepth)
    ensures Ahead(config, [v], path, key) <==>
            v.node.kind.Directory? && v.node.repository == Some(key) && path == v.path
  {
    if Ahead(config, [v], path, key) {
      assert path[|v.path|..] == [] && path == v.path + path[|v.path|..];
    }
    if v.node.kind.Directory? && v.node.repository == Some(key) && path == v.path {
      assert v in [v] && path[|v.path|..] == [];
    }
  }

  /** Nothing below a repository is reached, so no two repositories reached lie one inside the other. */
  lemma {:induction false} NotNested(config: Config, path: Path, node: Node, a: Path, b: Path, ka: string, kb: string)
    requires WellFormed(node) && LeadsTo(config, path, node, a, ka) && LeadsTo(config, path, node, b, kb) && a <= b
    ensures a == b && ka == kb
    decreases |a|
  {
    if a != [] {
      var x :| x in node.children && x.name == a[0] && LeadsTo(config, path + [x.name], x, a[1..], ka);
      var y :| y in node.children && y.name == b[0] && LeadsTo(config, path + [y.name], y, b[1..], kb);
      assert x == y;
      NotNested(config, path + [x.name], x, a[1..], b[1..], ka, kb);
      assert a == [a[0]] + a[1..] && b == [b[0]] + b[1..];
    }
  }

  /* ---- The walk ---- */

  /** Paths are compared name by name. */
  predicate NamesLeq(a: Path, b: Path) {
    a == [] || (b != [] && Leq(a[0], b[0]) && (a[0] != b[0] || NamesLeq(a[1..], b[1..])))
  }

  predicate FoundLeq(a: Found, b: Found) {
    NamesLeq(a.path, b.path)
  }

  lemma {:induction false} NamesTotal(a: Path, b: Path)
    ensures NamesLeq(a, b) || NamesLeq(b, a)
  {
    if a != [] && b != [] {
      LeqTotal(a[0], b[0]);
      LeqReflexive(a[0]);
      if a[0] == b[0] {
        NamesTotal(a[1..], b[1..]);
      }
    }
  }

  lemma {:induction false} NamesTransitive(a: Path, b: Path, c: Path)
    requires NamesLeq(a, b) && NamesLeq(b, c)
    ensures NamesLeq(a, c)
  {
    if a != [] {
      LeqTransitive(a[0], b[0], c[0]);
      if a[0] == c[0] {
        LeqAntisymmetric(a[0], b[0]);
        NamesTransitive(a[1..], b[1..], c[1..]);
      }
    }
  }

  /** The paths agree up to `k`, where `a` has the smaller name. */
  ghost predicate SmallerNameAt(a: Path, b: Path, k: nat) {
    k < |a| && k < |b| && a[..k] == b[..k] && a[k] != b[k] && (a[k] <= b[k] || exists i :: SmallerAt(a[k], b[k], i))
  }

  /** Paths go by the first name in which they differ, names by the first character, and a parent before what is in it. */
  lemma {:induction false} NamesByFirstDifference(a: Path, b: Path)
    ensures NamesLeq(a, b) <==> a <= b || exists k :: SmallerNameAt(a, b, k)
  {
    if a != [] && b != [] {
      LeqByFirstDifference(a[0], b[0]);
      LeqReflexive(a[0]);
      if a[0] == b[0] {
        NamesByFirstDifference(a[1..], b[1..]);
        assert a == [a[0]] + a[1..] && b == [b[0]] + b[1..];
        if k: nat :| SmallerNameAt(a[1..], b[1..], k) {
          AgreeFurther(a, b, k);
          assert SmallerNameAt(a, b, k + 1);
        }
        if k: nat :| SmallerNameAt(a, b, k) {
          AgreeFurther(a, b, k - 1);
          assert SmallerNameAt(a[1..], b[1..], k - 1);
        }
      } else {
        assert Leq(a[0], b[0]) ==> SmallerNameAt(a, b, 0);
        if k: nat :| SmallerNameAt(a, b, k) {
          if k > 0 {
            AgreeFirst(a, b, k);
          }
        }
      }
    }
  }

  lemma FoundLeqOrders()
    ensures TotalPreorder(FoundLeq)
  {
    forall a: Found, b: Found ensures FoundLeq(a, b) || FoundLeq(b, a) {
      NamesTotal(a.path, b.path);
    }
    forall a: Found, b: Found, c: Found | FoundLeq(a, b) && FoundLeq(b, c) ensures FoundLeq(a, c) {
      NamesTransitive(a.path, b.path, c.path);
    }
  }

  /** Directories wait in order of depth, over at most two levels. */
  predicate Levelled(pending: seq<Visit>) {
    && (forall i, j | 0 <= i < j < |pending| :: |pending[i].path| <= |pending[j].path|)
    && (forall i | 0 <= i < |pending| :: |pending[i].path| <= |pending[0].path| + 1)
  }

  /** Every repository in reach has been visited or lies ahead, and nothing else has been visited. */
  ghost predicate Covered(config: Config, root: Node, visited: set<Found>, pending: seq<Visit>) {
    forall path, key :: IsTop(config, root, path, key) <==> Found(path, key) in visited || Ahead(config, pending, path, key)
  }

  predicate OnePerKey(found: seq<Found>) {
    forall i, j | 0 <= i < j < |found| :: found[i].key != found[j].key
  }

  predicate HasKey(found: seq<Found>, key: string) {
    exists d :: d in found && d.key == key
  }

  lemma OneMoreKey(found: seq<Found>, f: Found)
    requires OnePerKey(found) && forall d | d in found :: d.key != f.key
    ensures OnePerKey(found + [f])
  {
  }

  /** Whether keys repeat does not depend on the order. */
  lemma OnePerKeyInAnyOrder(found: seq<Found>, other: seq<Found>)
    requires OnePerKey(found) && multiset(other) == multiset(found) && forall f :: f in other <==> f in found
    ensures OnePerKey(other)
  {
    forall i, j | 0 <= i < j < |other| ensures other[i].key != other[j].key {
      assert other[i] in found && other[j] in found;
      var p :| 0 <= p < |found| && found[p] == other[i];
      var q :| 0 <= q < |found| && found[q] == other[j];
      RepeatedCounts(other, i, j);
      if multiset(found)[other[j]] >= 2 {
        CountedRepeats(found, other[j]);
      }
    }
  }

  /** A repository with the same key, and no deeper, is in the list. */
  predicate Listed(found: seq<Found>, f: Found) {
    found != [] && ((found[0].key == f.key && |found[0].path| <= |f.path|) || Listed(found[1..], f))
  }

  lemma {:induction false} ListedIs(found: seq<Found>, f: Found)
    ensures Listed(found, f) <==> exists d :: d in found && d.key == f.key && |d.path| <= |f.path|
  {
    if found != [] {
      ListedIs(found[1..], f);
      assert found == [found[0]] + found[1..];
      if found[0].key == f.key && |found[0].path| <= |f.path| {
        assert found[0] in found;
      }
    }
  }

  /** Each key once, for a repository that was visited and than which none visited with that key is shallower. */
  ghost predicate Deduplicated(visited: set<Found>, found: seq<Found>, seen: set<string>) {
    && OnePerKey(found) && (forall d | d in found :: d in visited)
    && (forall f | f in visited :: Listed(found, f))
    && (forall key :: key in seen <==> HasKey(found, key))
  }

  lemma CoveredStep(config: Config, root: Node, visited: set<Found>, v: Visit, rest: seq<Visit>)
    requires Covered(config, root, visited, [v] + rest)
    ensures var leaf := !(v.node.kind.Directory? && v.node.repository.None? && |v.path| < config.maxDepth);
            var found := if v.node.kind.Directory? &&
                v.node.repository.Some? then {Found(v.path, v.node.repository.value)} else {};
            Covered(config, root, visited + found, rest + if leaf then [] else Entered(config, v.path, v.node.children))
  {
    var leaf := !(v.node.kind.Directory? && v.node.repository.None? && |v.path| < config.maxDepth);
    var entered := Entered(config, v.path, v.node.children);
    forall path, key
      ensures Ahead(config, [v] + rest, path, key) <==> Ahead(config, [v], path, key) || Ahead(config, rest, path, key)
      ensures Ahead(config, rest + (if leaf then [] else entered), path, key) <==>
              Ahead(config, rest, path, key) || (!leaf && Ahead(config, entered, path, key))
    {
      AheadConcat(config, [v], rest, path, key);
      AheadConcat(config, rest, if leaf then [] else entered, path, key);
    }
    forall path, key
      ensures leaf ==> (Ahead(config, [v], path, key) <==>
                        v.node.kind.Directory? && v.node.repository == Some(key) && path == v.path)
      ensures !leaf ==> (Ahead(config, [v], path, key) <==> Ahead(config, entered, path, key))
    {
      if leaf {
        AheadOfLeaf(config, v, path, key);
      } else {
        AheadOfChildren(config, v, path, key);
      }
    }
  }

  lemma LevelledStep(config: Config, pending: seq<Visit>)
    requires pending != [] && Levelled(pending)
    ensures Levelled(pending[1..])
    ensures Levelled(pending[1..] + Entered(config, pending[0].path, pending[0].node.children))
  {
    var v, rest := pending[0], pending[1..];
    var entered := Entered(config, v.path, v.node.children);
    forall w | w in entered ensures |w.path| == |v.path| + 1 {
      EnteredAre(config, v.path, v.node.children, w);
    }
    assert forall i | 0 <= i < |rest| :: rest[i] == pending[i + 1];
  }

  lemma ListedMore(found: seq<Found>, f: Found, g: Found)
    ensures Listed(found, g) ==> Listed(found + [f], g)
    ensures Listed(found + [f], f)
  {
    ListedIs(found, g);
    ListedIs(found + [f], g);
    ListedIs(found + [f], f);
    assert f in found + [f];
    if Listed(found, g) {
      var d :| d in found && d.key == g.key && |d.path| <= |g.path|;
      assert d in found + [f];
    }
  }

  /** A repository visited whose key is known: the one listed was no deeper. */
  lemma KnownKey(visited: set<Found>, found: seq<Found>, seen: set<string>, f: Found)
    requires Deduplicated(visited, found, seen) && (forall g | g in visited :: |g.path| <= |f.path|) && f.key in seen
    ensures Deduplicated(visited + {f}, found, seen)
  {
    assert HasKey(found, f.key);
    var d :| d in found && d.key == f.key;
    ListedIs(found, f);
  }

  /** A repository visited whose key is new is listed. */
  lemma NewKey(visited: set<Found>, found: seq<Found>, seen: set<string>, f: Found)
    requires Deduplicated(visited, found, seen) && f.key !in seen
    ensures Deduplicated(visited + {f}, found + [f], seen + {f.key})
  {
    var more := found + [f];
    assert !HasKey(found, f.key);
    OneMoreKey(found, f);
    forall g | g in visited + {f} ensures Listed(more, g) {
      ListedMore(found, f, g);
    }
    forall key ensures key in seen + {f.key} <==> HasKey(more, key) {
      HasOneMoreKey(found, f, key);
    }
  }

  lemma HasOneMoreKey(found: seq<Found>, f: Found, key: string)
    ensures HasKey(found + [f], key) <==> HasKey(found, key) || key == f.key
  {
    assert f in found + [f];
    if HasKey(found, key) {
      var d :| d in found && d.key == key;
      assert d in found + [f];
    }
  }

  lemma RootAhead(config: Config, root: Node)
    ensures Covered(config, root, {}, [Visit([], root)]) && Levelled([Visit([], root)])
  {
    var start := Visit([], root);
    forall path, key ensures IsTop(config, root, path, key) <==> Ahead(config, [start], path, key) {
      assert path[0..] == path && start in [start];
    }
  }

  /** Queues the children that are real directories and not excluded. */
  method EnterChildren(config: Config, v: Visit, before: seq<Visit>) returns (pending: seq<Visit>)
    ensures pending == before + Entered(config, v.path, v.node.children)
  {
    pending := before;
    var children := v.node.children;
    assert children[0..] == children;
    for k := 0 to |children|
      invariant pending + Entered(config, v.path, children[k..]) == before + Entered(config, v.path, children)
    {
      var child := children[k];
      assert children[k..][0] == child && children[k..][1..] == children[k + 1..];
      ghost var rest := Entered(config, v.path, children[k + 1..]);
      assert pending + ([Visit(v.path + [child.name], child)] + rest) == pending + [Visit(v.path + [child.name],
          child)] + rest;
      assert [] + rest == rest;
      if !child.kind.Directory? || child.name in config.excludedNames {
        continue;
      }
      var candidate := v.path + [child.name];
      if IsExcluded(config, candidate) {
        continue;
      }
      pending := pending + [Visit(candidate, child)];
    }
    assert pending + [] == pending;
  }

  lemma NoneNested(config: Config, root: Node, f: Found, g: Found)
    requires WellFormed(root) && IsTop(config, root, f.path, f.key) && IsTop(config, root, g.path, g.key) && f.path <= g.path
    ensures f == g
  {
    NotNested(config, [], root, f.path, g.path, f.key, g.key);
  }

  /** No repository visited lies deeper than a directory still waiting. */
  ghost predicate Shallower(visited: set<Found>, pending: seq<Visit>) {
    forall g, i | g in visited && 0 <= i < |pending| :: |g.path| <= |pending[i].path|
  }

  ghost predicate Walking(config: Config, root: Node, visited: set<Found>, pending: seq<Visit>, found: seq<Found>,
      seen: set<string>) {
    && Covered(config, root, visited, pending) && Levelled(pending) && Shallower(visited, pending)
    && Deduplicated(visited, found, seen)
  }

  lemma WalkPast(config: Config, root: Node, visited: set<Found>, pending: seq<Visit>, found: seq<Found>, seen: set<string>)
    requires pending != [] && Walking(config, root, visited, pending, found, seen)
    requires !pending[0].node.kind.Directory? || (pending[0].node.repository.None? && |pending[0].path| >= config.maxDepth)
    ensures Walking(config, root, visited, pending[1..], found, seen)
  {
    assert pending == [pending[0]] + pending[1..] && pending[1..] + [] == pending[1..] && visited + {} == visited;
    CoveredStep(config, root, visited, pending[0], pending[1..]);
    LevelledStep(config, pending);
  }

  lemma WalkFinds(config: Config, root: Node, visited: set<Found>, pending: seq<Visit>, found: seq<Found>,
      seen: set<string>, f: Found)
    requires pending != [] && Walking(config, root, visited, pending, found, seen)
    requires pending[0].node.kind.Directory? && pending[0].node.repository == Some(f.key) && f.path == pending[0].path
    ensures f.key in seen ==> Walking(config, root, visited + {f}, pending[1..], found, seen)
    ensures f.key !in seen ==> Walking(config, root, visited + {f}, pending[1..], found + [f], seen + {f.key})
  {
    assert pending == [pending[0]] + pending[1..] && pending[1..] + [] == pending[1..];
    CoveredStep(config, root, visited, pending[0], pending[1..]);
    LevelledStep(config, pending);
    if f.key in seen {
      KnownKey(visited, found, seen, f);
    } else {
      NewKey(visited, found, seen, f);
    }
    assert Shallower(visited + {f}, pending[1..]) by {
      assert forall i | 0 <= i < |pending[1..]| :: pending[1..][i] == pending[i + 1];
    }
  }

  lemma WalkDown(config: Config, root: Node, visited: set<Found>, pending: seq<Visit>, found: seq<Found>, seen: set<string>)
    requires pending != [] && Walking(config, root, visited, pending, found, seen)
    requires pending[0].node.kind.Directory? && pending[0].node.repository.None? && |pending[0].path| < config.maxDepth
    ensures Walking(config, root, visited, pending[1..] + Entered(config, pending[0].path, pending[0].node.children),
            found, seen)
  {
    var v := pending[0];
    assert pending == [v] + pending[1..] && visited + {} == visited;
    CoveredStep(config, root, visited, v, pending[1..]);
    LevelledStep(config, pending);
    forall w | w in Entered(config, v.path, v.node.children) ensures |w.path| == |v.path| + 1 {
      EnteredAre(config, v.path, v.node.children, w);
    }
  }

  lemma LessWork(config: Config, pending: seq<Visit>)
    requires pending != []
    ensures Work(pending[1..]) < Work(pending)
    ensures Work(pending[1..] + Entered(config, pending[0].path, pending[0].node.children)) < Work(pending)
  {
    EnteredWork(config, pending[0].path, pending[0].node.children);
    WorkConcat(pending[1..], Entered(config, pending[0].path, pending[0].node.children));
  }

  /** What a walk returns. */
  ghost predicate Complete(config: Config, root: Node, found: seq<Found>) {
    && (forall f | f in found :: IsTop(config, root, f.path, f.key))
    && (forall path, key | IsTop(config, root, path, key) :: Listed(found, Found(path, key)))
    && OnePerKey(found)
  }

  lemma WalkDone(config: Config, root: Node, visited: set<Found>, found: seq<Found>, seen: set<string>)
    requires Walking(config, root, visited, [], found, seen)
    ensures Complete(config, root, found)
  {
    forall f | f in found ensures IsTop(config, root, f.path, f.key) {
      assert f in visited && f == Found(f.path, f.key);
    }
  }

  lemma SortedFound(found: seq<Found>)
    ensures SortedBy(SortBy(found, FoundLeq), FoundLeq)
    ensures multiset(SortBy(found, FoundLeq)) == multiset(found)
    ensures forall f :: f in SortBy(found, FoundLeq) <==> f in found
  {
    FoundLeqOrders();
    SortSorts(found, FoundLeq);
    SortPermutes(found, FoundLeq);
    SameMembers(found, SortBy(found, FoundLeq));
  }

  lemma RearrangedIsComplete(config: Config, root: Node, found: seq<Found>, other: seq<Found>)
    requires Complete(config, root, found) && multiset(other) == multiset(found) && forall f :: f in other <==> f in found
    ensures Complete(config, root, other)
  {
    OnePerKeyInAnyOrder(found, other);
    forall path, key | IsTop(config, root, path, key) ensures Listed(other, Found(path, key)) {
      ListedIs(found, Found(path, key));
      ListedIs(other, Found(path, key));
      assert Listed(found, Found(path, key));
      var d :| d in found && d.key == key && |d.path| <= |path|;
      assert d in other;
    }
  }

  /** The walk ends on every tree and returns, sorted by path, one repository for each key that some topmost repository in
      reach has: one of the shallowest. */
  method DiscoverRepositories(root: Node, config: Config) returns (discovered: seq<Found>)
    ensures Complete(config, root, discovered) && SortedBy(discovered, FoundLeq)
  {
    var pending := [Visit([], root)];
    var seen: set<string> := {};
    ghost var visited: set<Found> := {};
    discovered := [];
    RootAhead(config, root);
    while pending != []
      invariant Walking(config, root, visited, pending, discovered, seen)
      decreases Work(pending)
    {
      var v := pending[0];
      LessWork(config, pending);
      if !v.node.kind.Directory? {
        WalkPast(config, root, visited, pending, discovered, seen);
        pending := pending[1..];
        continue;
      }
      if v.node.repository.Some? {
        var f := Found(v.path, v.node.repository.value);
        WalkFinds(config, root, visited, pending, discovered, seen, f);
        if f.key !in seen {
          seen := seen + {f.key};
          discovered := discovered + [f];
        }
        visited := visited + {f};
        pending := pending[1..];
        continue;
      }
      if |v.path| >= config.maxDepth {
        WalkPast(config, root, visited, pending, discovered, seen);
        pending := pending[1..];
        continue;
      }
      WalkDown(config, root, visited, pending, discovered, seen);
      pending := EnterChildren(config, v, pending[1..]);
    }
    WalkDone(config, root, visited, discovered, seen);
    SortedFound(discovered);
    RearrangedIsComplete(config, root, discovered, SortBy(discovered, FoundLeq));
    discovered := SortBy(discovered, FoundLeq);
  }
}
