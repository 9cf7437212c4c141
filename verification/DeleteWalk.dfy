/** Deleting a directory by a walk that unlinks every entry after what is below it. */
module DeleteWalk {
  import opened CLib
  import opened FileTree
  import opened FileSystem
  import opened TreeNames

  /** `delete_files_callback`: unlink, and ignore the outcome. */
  function DeleteEntry(fs: Nodes, v: Visit): Nodes {
    Unlink(fs, Resolve(v.path)).nodes
  }

  /** Every unlink of the walk finds a file or a directory that is already empty. */
  predicate AllUnlinked(fs: Nodes, visits: seq<Visit>) {
    visits == [] ||
    (Unlink(fs, Resolve(visits[0].path)).ok && AllUnlinked(DeleteEntry(fs, visits[0]), visits[1..]))
  }

  // ---------------------------------------------------------------------------------------------
  // What readdir lists
  // ---------------------------------------------------------------------------------------------

  /** The entry is on disk as described, with everything below it. */
  ghost predicate Listed(fs: Nodes, base: Path, node: Node)
    decreases node, 1
  {
    var k := base + [node.name];
    k in fs &&
    match node
    case FileNode(_, data) => fs[k] == Regular(data)
    case DirNode(_, children) => fs[k] == Directory && Lists(fs, k, children)
  }

  /** The listing names everything in the directory `base`, and nothing else but "." and "..". */
  ghost predicate Lists(fs: Nodes, base: Path, nodes: seq<Node>)
    decreases nodes, 0
  {
    && (forall i :: 0 <= i < |nodes| && !IsDots(nodes[i].name) ==> Listed(fs, base, nodes[i]))
    && (forall k :: k in fs && Under(base, k) ==> Covered(base, nodes, k))
  }

  /** `k` is one of the listed entries, or below one. */
  ghost predicate Covered(base: Path, nodes: seq<Node>, k: Path) {
    exists i :: 0 <= i < |nodes| && CoveredBy(base, nodes[i], k)
  }

  predicate CoveredBy(base: Path, node: Node, k: Path) {
    !IsDots(node.name) && AtOrUnder(base + [node.name], k)
  }

  ghost predicate AllListed(fs: Nodes, base: Path, nodes: seq<Node>) {
    forall i :: 0 <= i < |nodes| && !IsDots(nodes[i].name) ==> Listed(fs, base, nodes[i])
  }

  /** Everything fits the walk's path buffer. */
  predicate AllFit(path: Bytes, nodes: seq<Node>)
    requires path != []
    decreases nodes
  {
    nodes == [] ||
    (&& (IsDots(nodes[0].name) ||
         var p := Join(path, nodes[0].name);
         Fits(p) && (nodes[0].DirNode? ==> AllFit(p, nodes[0].children)))
     && AllFit(path, nodes[1..]))
  }

  ghost predicate FilesAreLeaves(fs: Nodes) {
    forall f :: f in fs && fs[f].Regular? ==> IsLeaf(fs, f)
  }

  // ---------------------------------------------------------------------------------------------
  // Removing parts of a file system
  // ---------------------------------------------------------------------------------------------

  /** Without the listed entries and everything below them. */
  ghost function Without(fs: Nodes, base: Path, nodes: seq<Node>): Nodes {
    map k | k in fs && !Covered(base, nodes, k) :: fs[k]
  }

  function WithoutTree(fs: Nodes, p: Path): Nodes {
    map k | k in fs && !AtOrUnder(p, k) :: fs[k]
  }

  lemma {:induction false} CoveredUnfolds(base: Path, nodes: seq<Node>, k: Path)
    requires nodes != []
    ensures Covered(base, nodes, k) <==> CoveredBy(base, nodes[0], k) || Covered(base, nodes[1..], k)
  {
    hide CoveredBy;
    if Covered(base, nodes, k) {
      var i :| 0 <= i < |nodes| && CoveredBy(base, nodes[i], k);
      assert i > 0 ==> nodes[1..][i - 1] == nodes[i];
    }
    if Covered(base, nodes[1..], k) {
      var i :| 0 <= i < |nodes[1..]| && CoveredBy(base, nodes[1..][i], k);
      assert nodes[i + 1] == nodes[1..][i];
    }
  }

  lemma {:induction false} WithoutUnfolds(fs: Nodes, base: Path, nodes: seq<Node>)
    requires nodes != []
    ensures IsDots(nodes[0].name) ==> Without(fs, base, nodes) == Without(fs, base, nodes[1..])
    ensures !IsDots(nodes[0].name) ==>
              Without(fs, base, nodes) == Without(WithoutTree(fs, base + [nodes[0].name]), base, nodes[1..])
  {
    hide Covered, IsDots, AtOrUnder;
    forall k | k in fs
      ensures Covered(base, nodes, k) <==> CoveredBy(base, nodes[0], k) || Covered(base, nodes[1..], k)
    {
      CoveredUnfolds(base, nodes, k);
    }
  }

  lemma {:induction false} ListedFrame(fs: Nodes, gs: Nodes, base: Path, node: Node)
    requires Listed(fs, base, node)
    requires forall k :: AtOrUnder(base + [node.name], k) ==> (k in fs <==> k in gs) && (k in fs ==> fs[k] == gs[k])
    ensures Listed(gs, base, node)
    decreases node
  {
    hide IsDots, Covered;
    var b := base + [node.name];
    if node.DirNode? {
      forall i | 0 <= i < |node.children| && !IsDots(node.children[i].name) ensures Listed(gs, b, node.children[i]) {
        forall k | AtOrUnder(b + [node.children[i].name], k) ensures AtOrUnder(b, k) {
          assert b == (b + [node.children[i].name])[..|b|] == k[..|b| + 1][..|b|] == k[..|b|];
        }
        ListedFrame(fs, gs, b, node.children[i]);
      }
    }
  }

  /** Other entries do not notice that one entry is gone. */
  lemma {:induction false} OthersStayListed(fs: Nodes, base: Path, nodes: seq<Node>)
    requires nodes != [] && DistinctNodes(nodes) && AllListed(fs, base, nodes)
    ensures AllListed(WithoutTree(fs, base + [nodes[0].name]), base, nodes[1..])
  {
    hide IsDots, Listed;
    var gone := base + [nodes[0].name];
    var gs := WithoutTree(fs, gone);
    forall i | 0 <= i < |nodes[1..]| && !IsDots(nodes[1..][i].name) ensures Listed(gs, base, nodes[1..][i]) {
      var node := nodes[1..][i];
      assert node == nodes[i + 1];
      var b := base + [node.name];
      forall k | AtOrUnder(b, k) ensures !AtOrUnder(gone, k) {
        assert k[|base|] == node.name;
      }
      ListedFrame(fs, gs, base, node);
    }
  }

  lemma {:induction false} RestIsListed(fs: Nodes, base: Path, nodes: seq<Node>)
    requires nodes != [] && AllListed(fs, base, nodes)
    ensures AllListed(fs, base, nodes[1..])
  {
    hide Listed, IsDots;
  }

  // ---------------------------------------------------------------------------------------------
  // The walk
  // ---------------------------------------------------------------------------------------------

  lemma {:induction false} UnlinkedConcat(fs: Nodes, xs: seq<Visit>, ys: seq<Visit>)
    ensures AllUnlinked(fs, xs + ys) <==> AllUnlinked(fs, xs) && AllUnlinked(Fold(DeleteEntry, fs, xs), ys)
    decreases |xs|
  {
    hide Resolve, Unlink;
    if xs == [] {
      assert xs + ys == ys;
    } else {
      assert (xs + ys)[1..] == xs[1..] + ys;
      UnlinkedConcat(DeleteEntry(fs, xs[0]), xs[1..], ys);
    }
  }

  /** Once everything below an entry is gone, unlinking it succeeds and takes it away. */
  lemma {:induction false} UnlinkLast(fs: Nodes, base: Path, node: Node, below: Nodes)
    requires FilesAreLeaves(fs) && Listed(fs, base, node)
    requires below == if node.DirNode? then Without(fs, base + [node.name], node.children) else fs
    ensures Unlink(below, base + [node.name]) == FsResult(WithoutTree(fs, base + [node.name]), true)
  {
    var b := base + [node.name];
    assert b in below by {
      if node.DirNode? { NotCoveredItself(b, node.children); }
    }
    assert node.DirNode? ==> forall k :: k in fs && Under(b, k) ==> Covered(b, node.children, k);
    assert IsLeaf(below, b);
    forall k | k in fs && !AtOrUnder(b, k) ensures k in below {
      if node.DirNode? && Covered(b, node.children, k) { CoveredIsUnder(b, node.children, k); }
    }
    forall k ensures AtOrUnder(b, k) <==> b == k || Under(b, k) {
      AtOrUnderMeaning(b, k);
    }
    assert below - {b} == WithoutTree(fs, b);
  }

  lemma {:induction false} NotCoveredItself(b: Path, nodes: seq<Node>)
    ensures !Covered(b, nodes, b)
  {
  }

  lemma {:induction false} CoveredIsUnder(base: Path, nodes: seq<Node>, k: Path)
    requires Covered(base, nodes, k)
    ensures Under(base, k)
  {
    hide IsDots;
    var i :| 0 <= i < |nodes| && CoveredBy(base, nodes[i], k);
    assert base == (base + [nodes[i].name])[..|base|] == k[..|base| + 1][..|base|] == k[..|base|];
  }

  lemma {:induction false} FewerFilesAreLeaves(fs: Nodes, p: Path)
    requires FilesAreLeaves(fs)
    ensures FilesAreLeaves(WithoutTree(fs, p))
  {
    hide Under, AtOrUnder;
  }

  lemma {:induction false} NothingWithout(fs: Nodes, base: Path)
    ensures Without(fs, base, []) == fs
  {
  }

  /** The callbacks for one entry: those below it, then its own. */
  function EntryVisits(path: Bytes, node: Node): seq<Visit>
    requires path != []
  {
    var p := Join(path, node.name);
    (if node.DirNode? then WalkTree(p, node.children).visits else []) + [Visit(p, node)]
  }

  lemma {:induction false} DeletesEntry(fs: Nodes, path: Bytes, node: Node)
    requires path != [] && ValidEntryName(node.name) && !IsDots(node.name)
    requires FilesAreLeaves(fs) && Listed(fs, Resolve(path), node)
    requires node.DirNode? ==>
               var p := Join(path, node.name);
               var visits := WalkTree(p, node.children).visits;
               && AllUnlinked(fs, visits)
               && Fold(DeleteEntry, fs, visits) == Without(fs, Resolve(p), node.children)
    ensures AllUnlinked(fs, EntryVisits(path, node))
    ensures Fold(DeleteEntry, fs, EntryVisits(path, node)) == WithoutTree(fs, Resolve(path) + [node.name])
  {
    hide Resolve, WalkTree, Listed, Unlink, IsDots, FilesAreLeaves, Without, WithoutTree;
    var p := Join(path, node.name);
    var below := if node.DirNode? then WalkTree(p, node.children).visits else [];
    var own := [Visit(p, node)];
    var fs1 := Fold(DeleteEntry, fs, below);
    ResolveOfEntry(path, node.name);
    UnlinkLast(fs, Resolve(path), node, fs1);
    UnlinkedConcat(fs, below, own);
    FoldOfConcat(DeleteEntry, fs, below, own);
    FoldOne(DeleteEntry, fs1, Visit(p, node));
    assert own[1..] == [];
  }

  /** A walk over a listing deletes exactly what is listed, by unlinks that all succeed. */
  lemma {:induction false} DeletesListing(fs: Nodes, path: Bytes, nodes: seq<Node>)
    requires path != [] && ValidNodes(nodes) && DistinctNodes(nodes) && AllFit(path, nodes)
    requires FilesAreLeaves(fs) && AllListed(fs, Resolve(path), nodes)
    ensures AllUnlinked(fs, WalkTree(path, nodes).visits) && !WalkTree(path, nodes).tooLong
    ensures Fold(DeleteEntry, fs, WalkTree(path, nodes).visits) == Without(fs, Resolve(path), nodes)
    decreases nodes
  {
    hide Resolve, Unlink, IsDots, FilesAreLeaves, Without, WithoutTree, Fits, AllUnlinked, AllListed, ValidEntryName, EntryVisits;
    var base := Resolve(path);
    if nodes == [] {
      NothingWithout(fs, base);
      NothingUnlinked(fs);
      FoldNothing(DeleteEntry, fs);
    } else if IsDots(nodes[0].name) {
      RestIsListed(fs, base, nodes);
      WithoutUnfolds(fs, base, nodes);
      DeletesListing(fs, path, nodes[1..]);
    } else {
      var node := nodes[0];
      var p := Join(path, node.name);
      var rest := WalkTree(path, nodes[1..]).visits;
      var gs := WithoutTree(fs, base + [node.name]);
      FirstIsListed(fs, base, nodes);
      if node.DirNode? {
        ResolveOfEntry(path, node.name);
        ChildrenAreListed(fs, base, node);
        DeletesListing(fs, p, node.children);
      }
      DeletesEntry(fs, path, node);
      OthersStayListed(fs, base, nodes);
      FewerFilesAreLeaves(fs, base + [node.name]);
      DeletesListing(gs, path, nodes[1..]);
      WithoutUnfolds(fs, base, nodes);
      VisitsOfFirst(path, nodes);
      UnlinkedConcat(fs, EntryVisits(path, node), rest);
      FoldOfConcat(DeleteEntry, fs, EntryVisits(path, node), rest);
    }
  }

  lemma {:induction false} VisitsOfFirst(path: Bytes, nodes: seq<Node>)
    requires path != [] && nodes != [] && !IsDots(nodes[0].name) && Fits(Join(path, nodes[0].name))
    ensures WalkTree(path, nodes).visits == EntryVisits(path, nodes[0]) + WalkTree(path, nodes[1..]).visits
  {
  }

  lemma {:induction false} NothingUnlinked(fs: Nodes)
    ensures AllUnlinked(fs, [])
  {
  }

  lemma {:induction false} FirstIsListed(fs: Nodes, base: Path, nodes: seq<Node>)
    requires nodes != [] && !IsDots(nodes[0].name) && AllListed(fs, base, nodes)
    ensures Listed(fs, base, nodes[0])
  {
    hide Listed, IsDots;
  }

  lemma {:induction false} ChildrenAreListed(fs: Nodes, base: Path, node: Node)
    requires Listed(fs, base, node) && node.DirNode?
    ensures AllListed(fs, base + [node.name], node.children)
  {
  }

  lemma {:induction false} WellFormedFilesAreLeaves(fs: Nodes)
    requires WellFormedFs(fs)
    ensures FilesAreLeaves(fs)
  {
    hide WellFormedFs;
    forall f, k | f in fs && fs[f].Regular? && k in fs ensures !Under(f, k) {
      if Under(f, k) { AncestorsAreDirectories(fs, k, f); }
    }
  }

  /**
   The delete walk over a directory whose paths all fit empties it, and touches nothing else: every
   unlink it makes is of a file or of a directory that is already empty.
   */
  lemma {:induction false} WalkEmptiesDirectory(fs: Nodes, path: Bytes, nodes: seq<Node>)
    requires WellFormedFs(fs) && path != [] && ValidNodes(nodes) && DistinctNodes(nodes) && AllFit(path, nodes)
    requires Lists(fs, Resolve(path), nodes)
    ensures AllUnlinked(fs, WalkTree(path, nodes).visits) && !WalkTree(path, nodes).tooLong
    ensures Fold(DeleteEntry, fs, WalkTree(path, nodes).visits) == map k | k in fs && !Under(Resolve(path), k) :: fs[k]
  {
    hide Resolve, AllUnlinked, WalkTree, AllFit, WellFormedFs, ValidNodes, DistinctNodes, Fold, Unlink;
    var base := Resolve(path);
    WellFormedFilesAreLeaves(fs);
    DeletesListing(fs, path, nodes);
    forall k | k in fs ensures Covered(base, nodes, k) <==> Under(base, k) {
      if Covered(base, nodes, k) { CoveredIsUnder(base, nodes, k); }
    }
  }
}
