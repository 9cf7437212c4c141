/** Which trees can be uploaded, entry by entry: how long their paths and how deep their directories may be. */
module TreeLimits {
  import opened CLib
  import opened FileTree
  import opened FileSystem
  import opened Traversal
  import opened TreeNames
  import opened TarCursor

  /** The tree has a directory or a file at this relative path; "." and ".." are no entries. */
  ghost predicate EntryAt(nodes: seq<Node>, p: Path, isDir: bool)
    decreases |p|
  {
    exists i :: 0 <= i < |nodes| && EntryLeadsTo(nodes[i], p, isDir)
  }

  ghost predicate EntryLeadsTo(node: Node, p: Path, isDir: bool)
    decreases |p|, 0
  {
    && p != [] && node.name == p[0] && p[0] != [46] && p[0] != [46, 46]
    && (if |p| == 1 then node.DirNode? == isDir else node.DirNode? && EntryAt(node.children, p[1..], isDir))
  }

  /** Every path is below 256 bytes, and every directory at most ten levels deep, `depth` of them already there. */
  ghost predicate AllWithin(path: Bytes, nodes: seq<Node>, depth: nat)
    requires path != []
  {
    forall p: Path, isDir: bool {:trigger EntryAt(nodes, p, isDir)} :: EntryAt(nodes, p, isDir) ==>
      |Descend(path, p)| < 256 && (isDir ==> depth + |p| <= 10)
  }

  lemma {:induction false} EntryAtUnfolds(nodes: seq<Node>, p: Path, isDir: bool)
    ensures EntryAt(nodes, p, isDir) <==>
              nodes != [] && (EntryLeadsTo(nodes[0], p, isDir) || EntryAt(nodes[1..], p, isDir))
  {
    hide EntryLeadsTo;
    if EntryAt(nodes, p, isDir) {
      var i :| 0 <= i < |nodes| && EntryLeadsTo(nodes[i], p, isDir);
      assert i > 0 ==> nodes[1..][i - 1] == nodes[i];
    }
    if nodes != [] && EntryAt(nodes[1..], p, isDir) {
      var i :| 0 <= i < |nodes[1..]| && EntryLeadsTo(nodes[1..][i], p, isDir);
      assert nodes[i + 1] == nodes[1..][i];
    }
  }

  /** What one entry needs for itself and for what is below it. */
  ghost predicate EntryWithin(path: Bytes, node: Node, depth: nat)
    requires path != []
  {
    node.name == [46] || node.name == [46, 46] ||
    (&& |Join(path, node.name)| < 256
     && (node.DirNode? ==> depth < 10 && AllWithin(Join(path, node.name), node.children, depth + 1)))
  }

  lemma {:induction false} DescendOnce(path: Bytes, name: Bytes, q: Path)
    requires path != []
    ensures Descend(path, [name] + q) == Descend(Join(path, name), q)
    ensures Descend(path, [name]) == Join(path, name)
  {
    hide Join;
    assert ([name] + q)[1..] == q && [name][1..] == [];
    assert Descend(Join(path, name), []) == Join(path, name);
  }

  lemma {:induction false} NothingIsNoEntry(nodes: seq<Node>, isDir: bool)
    ensures !EntryAt(nodes, [], isDir)
  {
  }

  lemma {:induction false} EntryNeeds(path: Bytes, node: Node, depth: nat, p: Path, isDir: bool)
    requires path != [] && EntryWithin(path, node, depth) && EntryLeadsTo(node, p, isDir)
    ensures |Descend(path, p)| < 256 && (isDir ==> depth + |p| <= 10)
  {
    hide Join, EntryAt;
    DescendOnce(path, node.name, p[1..]);
    assert p == [node.name] + p[1..];
    if |p| == 1 { assert p == [node.name]; }
  }

  lemma {:induction false} EntryIsWithin(path: Bytes, node: Node, depth: nat)
    requires path != []
    requires forall p: Path, isDir: bool {:trigger EntryLeadsTo(node, p, isDir)} :: EntryLeadsTo(node, p, isDir) ==>
               |Descend(path, p)| < 256 && (isDir ==> depth + |p| <= 10)
    ensures EntryWithin(path, node, depth)
  {
    hide Join, EntryAt, Descend;
    if node.name != [46] && node.name != [46, 46] {
      DescendOnce(path, node.name, []);
      assert EntryLeadsTo(node, [node.name], node.DirNode?);
      if node.DirNode? {
        forall q: Path, isDir: bool | EntryAt(node.children, q, isDir)
          ensures |Descend(Join(path, node.name), q)| < 256 && (isDir ==> depth + 1 + |q| <= 10)
        {
          NothingIsNoEntry(node.children, isDir);
          DescendOnce(path, node.name, q);
          var p := [node.name] + q;
          assert p[1..] == q && p[0] == node.name;
          assert EntryLeadsTo(node, p, isDir);
        }
      }
    }
  }

  /** The limits of a listing are those of its first entry and those of the rest. */
  lemma {:induction false} WithinUnfolds(path: Bytes, nodes: seq<Node>, depth: nat)
    requires path != [] && nodes != []
    ensures AllWithin(path, nodes, depth) <==> EntryWithin(path, nodes[0], depth) && AllWithin(path, nodes[1..], depth)
  {
    hide Descend, EntryAt, EntryLeadsTo, EntryWithin;
    forall p: Path, isDir: bool
      ensures EntryAt(nodes, p, isDir) <==> EntryLeadsTo(nodes[0], p, isDir) || EntryAt(nodes[1..], p, isDir)
    {
      EntryAtUnfolds(nodes, p, isDir);
    }
    if AllWithin(path, nodes, depth) { EntryIsWithin(path, nodes[0], depth); }
    if EntryWithin(path, nodes[0], depth) && AllWithin(path, nodes[1..], depth) {
      forall p: Path, isDir: bool | EntryAt(nodes, p, isDir)
        ensures |Descend(path, p)| < 256 && (isDir ==> depth + |p| <= 10)
      {
        if EntryLeadsTo(nodes[0], p, isDir) { EntryNeeds(path, nodes[0], depth, p, isDir); }
      }
    }
  }

  lemma {:induction false} ListableIsWithin(path: Bytes, nodes: seq<Node>, depth: nat)
    requires path != []
    ensures Listable(path, nodes, depth) <==> AllWithin(path, nodes, depth)
    decreases nodes
  {
    hide Join, AllWithin;
    if nodes == [] {
      assert AllWithin(path, nodes, depth) by { NoEntries(path, depth); }
    } else {
      WithinUnfolds(path, nodes, depth);
      ListableIsWithin(path, nodes[1..], depth);
      if nodes[0].DirNode? { ListableIsWithin(Join(path, nodes[0].name), nodes[0].children, depth + 1); }
    }
  }

  lemma {:induction false} NoEntries(path: Bytes, depth: nat)
    requires path != []
    ensures AllWithin(path, [], depth)
  {
  }

  lemma {:induction false} EntriesAreRelative(nodes: seq<Node>, p: Path, isDir: bool)
    requires ValidNodes(nodes) && EntryAt(nodes, p, isDir)
    ensures IsRelative(p)
    decreases |p|
  {
    hide ValidNodes, ValidEntryName, EntryAt;
    var i := EntryIndex(nodes, p, isDir);
    ValidNodesAt(nodes, i);
    assert IsName(p[0]);
    if |p| > 1 {
      EntriesAreRelative(nodes[i].children, p[1..], isDir);
      assert forall j :: 0 < j < |p| ==> p[j] == p[1..][j - 1];
    }
  }

  lemma {:induction false} EntryIndex(nodes: seq<Node>, p: Path, isDir: bool) returns (i: nat)
    requires EntryAt(nodes, p, isDir)
    ensures i < |nodes| && EntryLeadsTo(nodes[i], p, isDir)
  {
    var j :| 0 <= j < |nodes| && EntryLeadsTo(nodes[j], p, isDir);
    i := j;
  }

  /** The length of the full path of an entry: the source, a slash unless it ends in one, and the names with slashes between. */
  function FullLength(source: Bytes, p: Path): nat
    requires source != [] && p != []
  {
    |source| + (if source[|source| - 1] == 47 then 0 else 1) + |Slashed(p)|
  }

  predicate WithinLimits(source: Bytes, p: Path, isDir: bool)
    requires source != []
  {
    p != [] && FullLength(source, p) < 256 && (isDir ==> |p| <= 9)
  }

  /**
   The cursor lists a tree completely exactly when every entry's full path has fewer than 256 bytes and no
   directory lies more than nine levels below the source.
   */
  lemma {:induction false} CompleteExactlyWithinLimits(source: Bytes, nodes: seq<Node>)
    requires source != [] && NulFree(source) && Fits(source) && ValidNodes(nodes)
    ensures ValidStack([Frame(source, nodes)])
    ensures Drain([Frame(source, nodes)]).complete <==>
              forall p: Path, isDir: bool :: EntryAt(nodes, p, isDir) ==> WithinLimits(source, p, isDir)
  {
    hide ValidNodes, Drain, Listable, EntryAt, Descend, Slashed, FilesBelow, IsRelative;
    CursorRefinesWalk(source, nodes);
    ListableIsWithin(source, nodes, 1);
    forall p: Path, isDir: bool | EntryAt(nodes, p, isDir)
      ensures p != [] && |Descend(source, p)| == FullLength(source, p)
    {
      EntriesAreRelative(nodes, p, isDir);
      assert p != [] by { NothingIsNoEntry(nodes, isDir); }
      DescendIsJoin(source, p);
    }
    hide FullLength;
    if AllWithin(source, nodes, 1) {
      forall p: Path, isDir: bool | EntryAt(nodes, p, isDir) ensures WithinLimits(source, p, isDir) {
      }
    }
    if forall p: Path, isDir: bool :: EntryAt(nodes, p, isDir) ==> WithinLimits(source, p, isDir) {
      forall p: Path, isDir: bool | EntryAt(nodes, p, isDir)
        ensures |Descend(source, p)| < 256 && (isDir ==> 1 + |p| <= 10)
      {
        assert WithinLimits(source, p, isDir);
      }
    }
  }
}
