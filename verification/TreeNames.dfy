/** The regular files of a tree by their relative paths, and how those paths are written down. */
module TreeNames {
  import opened CLib
  import opened UstarHeader
  import opened SafePath
  import opened FileTree
  import opened FileSystem
  import opened Traversal
  import TarCursor

  /** A regular file and the names that lead to it. */
  datatype Leaf = Leaf(path: Path, data: Bytes)

  /** The tree has a regular file with this content at this relative path. */
  ghost predicate FileAt(nodes: seq<Node>, p: Path, data: Bytes)
    decreases |p|
  {
    exists i :: 0 <= i < |nodes| && LeadsTo(nodes[i], p, data)
  }

  ghost predicate LeadsTo(node: Node, p: Path, data: Bytes)
    decreases |p|, 0
  {
    && p != [] && node.name == p[0] && p[0] != [46] && p[0] != [46, 46]
    && (node.DirNode? ==> |p| > 1 && FileAt(node.children, p[1..], data))
    && (node.FileNode? ==> p == [node.name] && data == node.data)
  }

  /** A directory lists no name twice. */
  predicate DistinctNodes(nodes: seq<Node>) {
    nodes == [] ||
    (&& (forall j :: 1 <= j < |nodes| ==> nodes[j].name != nodes[0].name)
     && (nodes[0].DirNode? ==> DistinctNodes(nodes[0].children))
     && DistinctNodes(nodes[1..]))
  }

  // ---------------------------------------------------------------------------------------------
  // All files, in listing order
  // ---------------------------------------------------------------------------------------------

  function Leaves(nodes: seq<Node>): seq<Leaf>
    decreases nodes, 0
  {
    if nodes == [] then []
    else (if IsDots(nodes[0].name) then [] else LeavesAt(nodes[0])) + Leaves(nodes[1..])
  }

  function LeavesAt(node: Node): seq<Leaf>
    decreases node, 1
  {
    match node
    case FileNode(name, data) => [Leaf([name], data)]
    case DirNode(name, children) => Inside(name, Leaves(children))
  }

  function Inside(name: Bytes, leaves: seq<Leaf>): (r: seq<Leaf>)
    ensures |r| == |leaves|
  {
    seq(|leaves|, i requires 0 <= i < |leaves| => Leaf([name] + leaves[i].path, leaves[i].data))
  }

  /** Entry names that are neither "." nor "..". */
  predicate IsName(c: Bytes) { ValidEntryName(c) && !IsDots(c) }

  predicate IsRelative(p: Path) {
    p != [] && forall i :: 0 <= i < |p| ==> IsName(p[i])
  }

  predicate AllRelative(leaves: seq<Leaf>) {
    forall i :: 0 <= i < |leaves| ==> IsRelative(leaves[i].path)
  }

  lemma {:induction false} LeavesAreRelative(nodes: seq<Node>)
    requires ValidNodes(nodes)
    ensures AllRelative(Leaves(nodes))
    decreases nodes
  {
    hide IsName, IsDots;
    if nodes != [] {
      LeavesAreRelative(nodes[1..]);
      if !IsDots(nodes[0].name) {
        assert IsName(nodes[0].name) by { NameOfEntry(nodes[0].name); }
        if nodes[0].DirNode? {
          LeavesAreRelative(nodes[0].children);
          InsideIsRelative(nodes[0].name, Leaves(nodes[0].children));
        }
      }
    }
  }

  lemma {:induction false} NameOfEntry(name: Bytes)
    requires ValidEntryName(name) && !IsDots(name)
    ensures IsName(name)
  {
  }

  lemma {:induction false} InsideIsRelative(name: Bytes, leaves: seq<Leaf>)
    requires IsName(name) && AllRelative(leaves)
    ensures AllRelative(Inside(name, leaves))
  {
    hide IsName;
    forall i | 0 <= i < |leaves| ensures IsRelative(Inside(name, leaves)[i].path) {
      assert IsRelative(leaves[i].path);
    }
  }

  lemma {:induction false} LeavesAreFiles(nodes: seq<Node>, p: Path, data: Bytes)
    ensures Leaf(p, data) in Leaves(nodes) <==> FileAt(nodes, p, data)
    decreases nodes, |p|
  {
    hide IsDots, FileAt;
    FileAtUnfolds(nodes, p, data);
    if nodes != [] {
      LeavesAreFiles(nodes[1..], p, data);
      LeavesAtLeadsTo(nodes[0], p, data);
    }
  }

  lemma {:induction false} FileAtUnfolds(nodes: seq<Node>, p: Path, data: Bytes)
    ensures FileAt(nodes, p, data) <==>
              nodes != [] && (LeadsTo(nodes[0], p, data) || FileAt(nodes[1..], p, data))
  {
    hide LeadsTo;
    if FileAt(nodes, p, data) {
      var i :| 0 <= i < |nodes| && LeadsTo(nodes[i], p, data);
      assert i > 0 ==> nodes[1..][i - 1] == nodes[i];
    }
    if nodes != [] && FileAt(nodes[1..], p, data) {
      var i :| 0 <= i < |nodes[1..]| && LeadsTo(nodes[1..][i], p, data);
      assert nodes[i + 1] == nodes[1..][i];
    }
  }

  lemma {:induction false} LeavesAtLeadsTo(node: Node, p: Path, data: Bytes)
    ensures !IsDots(node.name) && Leaf(p, data) in LeavesAt(node) <==> LeadsTo(node, p, data)
    decreases node, |p|
  {
    if node.DirNode? {
      var inner := Leaves(node.children);
      if Leaf(p, data) in LeavesAt(node) {
        var i :| 0 <= i < |inner| && Inside(node.name, inner)[i] == Leaf(p, data);
        assert p[1..] == inner[i].path;
        LeavesAreFiles(node.children, p[1..], data);
        FileAtIsSomewhere(node.children, p[1..], data);
      }
      if p != [] && node.name == p[0] {
        LeavesAreFiles(node.children, p[1..], data);
        if Leaf(p[1..], data) in inner {
          var i :| 0 <= i < |inner| && inner[i] == Leaf(p[1..], data);
          assert [node.name] + p[1..] == p;
          assert Inside(node.name, inner)[i] == Leaf(p, data);
        }
      }
    } else if p != [] && p[0] == node.name && |p| == 1 {
      assert p == [node.name];
    }
  }

  lemma {:induction false} FileAtIsSomewhere(nodes: seq<Node>, p: Path, data: Bytes)
    requires FileAt(nodes, p, data)
    ensures p != []
  {
  }

  // ---------------------------------------------------------------------------------------------
  // No file is, or lies inside, another
  // ---------------------------------------------------------------------------------------------

  ghost predicate Apart(a: Leaf, b: Leaf) { !AtOrUnder(a.path, b.path) && !AtOrUnder(b.path, a.path) }

  ghost predicate AllApart(leaves: seq<Leaf>) {
    forall i, j :: 0 <= i < j < |leaves| ==> Apart(leaves[i], leaves[j])
  }

  predicate HeadIs(l: Leaf, name: Bytes) { l.path != [] && l.path[0] == name }

  lemma {:induction false} HeadsApart(a: Leaf, b: Leaf, name: Bytes)
    requires HeadIs(a, name) && b.path != [] && !HeadIs(b, name)
    ensures Apart(a, b)
  {
  }

  lemma {:induction false} InsideApart(name: Bytes, leaves: seq<Leaf>)
    requires AllApart(leaves)
    ensures AllApart(Inside(name, leaves))
    ensures forall i :: 0 <= i < |leaves| ==> HeadIs(Inside(name, leaves)[i], name)
  {
    var r := Inside(name, leaves);
    forall i, j | 0 <= i < j < |leaves| ensures Apart(r[i], r[j]) {
      assert Apart(leaves[i], leaves[j]);
      assert leaves[i].path == r[i].path[1..] && leaves[j].path == r[j].path[1..];
      SharedHead(name, leaves[i].path, leaves[j].path);
      SharedHead(name, leaves[j].path, leaves[i].path);
    }
  }

  lemma {:induction false} SharedHead(name: Bytes, a: Path, b: Path)
    ensures AtOrUnder([name] + a, [name] + b) ==> AtOrUnder(a, b)
  {
    if [name] + a <= [name] + b {
      assert a == ([name] + a)[1..] && b == ([name] + b)[1..];
      assert b[..|a|] == ([name] + b)[..|a| + 1][1..];
    }
  }

  /** The first names of a listing's files are names in the listing. */
  lemma {:induction false} LeafHeads(nodes: seq<Node>, k: nat)
    requires k < |Leaves(nodes)|
    ensures exists j :: 0 <= j < |nodes| && HeadIs(Leaves(nodes)[k], nodes[j].name)
    decreases |nodes|
  {
    hide IsDots, LeavesAt, HeadIs;
    var own := if IsDots(nodes[0].name) then [] else LeavesAt(nodes[0]);
    if k < |own| {
      LeavesAtHead(nodes[0], k);
      assert Leaves(nodes)[k] == own[k];
    } else {
      LeafHeads(nodes[1..], k - |own|);
      var j :| 0 <= j < |nodes[1..]| && HeadIs(Leaves(nodes[1..])[k - |own|], nodes[1..][j].name);
      assert nodes[j + 1] == nodes[1..][j];
    }
  }

  lemma {:induction false} LeavesAtHead(node: Node, k: nat)
    requires k < |LeavesAt(node)|
    ensures HeadIs(LeavesAt(node)[k], node.name)
  {
  }

  lemma {:induction false} LeavesApart(nodes: seq<Node>)
    requires DistinctNodes(nodes)
    ensures AllApart(Leaves(nodes))
    decreases nodes
  {
    hide IsDots, Apart, LeavesAt, HeadIs;
    if nodes != [] {
      LeavesApart(nodes[1..]);
      var own := if IsDots(nodes[0].name) then [] else LeavesAt(nodes[0]);
      var others := Leaves(nodes[1..]);
      assert AllApart(own) by {
        if nodes[0].DirNode? {
          LeavesApart(nodes[0].children);
          InsideApart(nodes[0].name, Leaves(nodes[0].children));
        }
        OwnApart(nodes[0]);
      }
      forall i, k | 0 <= i < |own| && 0 <= k < |others| ensures Apart(own[i], others[k]) {
        LeavesAtHead(nodes[0], i);
        LeafHeads(nodes[1..], k);
        var j :| 0 <= j < |nodes[1..]| && HeadIs(others[k], nodes[1..][j].name);
        assert nodes[j + 1] == nodes[1..][j];
        OtherHead(others[k], nodes[0].name, nodes[j + 1].name);
        HeadsApart(own[i], others[k], nodes[0].name);
      }
      ConcatApart(own, others);
    }
  }

  lemma {:induction false} OtherHead(l: Leaf, name: Bytes, other: Bytes)
    requires HeadIs(l, other) && name != other
    ensures l.path != [] && !HeadIs(l, name)
  {
  }

  lemma {:induction false} OwnApart(node: Node)
    requires node.DirNode? ==> AllApart(Inside(node.name, Leaves(node.children)))
    ensures AllApart(LeavesAt(node))
  {
  }

  lemma {:induction false} ConcatApart(xs: seq<Leaf>, ys: seq<Leaf>)
    requires AllApart(xs) && AllApart(ys)
    requires forall i, k :: 0 <= i < |xs| && 0 <= k < |ys| ==> Apart(xs[i], ys[k])
    ensures AllApart(xs + ys)
  {
    hide Apart;
  }

  // ---------------------------------------------------------------------------------------------
  // Relative paths as strings
  // ---------------------------------------------------------------------------------------------

  /** The names with slashes between them. */
  function Slashed(p: Path): Bytes
    requires p != []
  {
    if |p| == 1 then p[0] else p[0] + [SLASH] + Slashed(p[1..])
  }

  lemma {:induction false} SlashedIsProper(p: Path)
    requires IsRelative(p)
    ensures var s := Slashed(p);
            && s != [] && NulFree(s) && s[0] != SLASH && s[|s| - 1] != SLASH
            && Components(s) == p && Resolve(s) == p && IsSafePath(s, false, false)
    decreases |p|
  {
    assert IsName(p[0]);
    ResolveOfComponent(p[0]);
    if |p| == 1 {
      assert p == [p[0]];
    } else {
      assert IsRelative(p[1..]) by { assert forall i :: 0 <= i < |p[1..]| ==> p[1..][i] == p[i + 1]; }
      SlashedIsProper(p[1..]);
      JoinedIsProper(p[0], Slashed(p[1..]));
      ComponentsOfJoin(p[0], Slashed(p[1..]));
      assert p == [p[0]] + p[1..];
    }
    KeepsAllNames(p);
    NamesAreNotDots(p);
  }

  lemma {:induction false} JoinedIsProper(a: Bytes, b: Bytes)
    requires a != [] && b != [] && NulFree(a) && NulFree(b) && a[0] != SLASH && b[|b| - 1] != SLASH
    ensures var s := a + [SLASH] + b;
            s != [] && NulFree(s) && s[0] != SLASH && s[|s| - 1] != SLASH
  {
  }

  lemma {:induction false} KeepsAllNames(p: Path)
    requires forall i :: 0 <= i < |p| ==> IsName(p[i])
    ensures WithoutSkipped(p) == p
  {
    if p != [] {
      KeepsAllNames(p[1..]);
      assert !IsSkipped(p[0]) by { assert IsName(p[0]); }
      assert p == [p[0]] + p[1..];
    }
  }

  lemma {:induction false} NamesAreNotDots(p: Path)
    requires forall i :: 0 <= i < |p| ==> IsName(p[i])
    ensures DOT_DOT !in p
  {
  }

  /** Appending names one by one is appending them all, slash-separated. */
  function Descend(base: Bytes, p: Path): (r: Bytes)
    requires base != []
    ensures r != []
    decreases |p|
  {
    if p == [] then base else Descend(Join(base, p[0]), p[1..])
  }

  lemma {:induction false} DescendIsJoin(base: Bytes, p: Path)
    requires base != [] && IsRelative(p)
    ensures Descend(base, p) == Join(base, Slashed(p))
    decreases |p|
  {
    assert IsName(p[0]);
    if |p| == 1 {
      assert p[1..] == [];
    } else {
      assert IsRelative(p[1..]) by { assert forall i :: 0 <= i < |p[1..]| ==> p[1..][i] == p[i + 1]; }
      DescendIsJoin(Join(base, p[0]), p[1..]);
      JoinTwice(base, p[0], Slashed(p[1..]));
    }
  }

  lemma {:induction false} JoinTwice(base: Bytes, name: Bytes, rest: Bytes)
    requires base != [] && IsName(name)
    ensures Join(Join(base, name), rest) == Join(base, name + [SLASH] + rest)
  {
    var inner := Join(base, name);
    assert inner[|inner| - 1] == name[|name| - 1] != SLASH;
    assert inner + [SLASH] + rest == inner + ([SLASH] + rest);
    assert name + [SLASH] + rest == name + ([SLASH] + rest);
    Associative(base, name, [SLASH] + rest);
    Associative(base + [SLASH], name, [SLASH] + rest);
  }

  /** What the archive calls a file below the source. */
  lemma {:induction false} RelativeNameIsSlashed(source: Bytes, p: Path)
    requires source != [] && IsRelative(p)
    ensures source <= Descend(source, p)
    ensures TarCursor.RelativeName(source, Descend(source, p)) == Slashed(p)
  {
    DescendIsJoin(source, p);
    SlashedIsProper(p);
  }

  // ---------------------------------------------------------------------------------------------
  // The listing is the tree
  // ---------------------------------------------------------------------------------------------

  function Located(base: Bytes, leaves: seq<Leaf>): (r: seq<TarCursor.Found>)
    requires base != []
    ensures |r| == |leaves|
  {
    seq(|leaves|, i requires 0 <= i < |leaves| => TarCursor.Found(Descend(base, leaves[i].path), leaves[i].data))
  }

  lemma {:induction false} LocatedOfConcat(base: Bytes, xs: seq<Leaf>, ys: seq<Leaf>)
    requires base != []
    ensures Located(base, xs + ys) == Located(base, xs) + Located(base, ys)
  {
  }

  lemma {:induction false} LocatedInside(base: Bytes, name: Bytes, leaves: seq<Leaf>)
    requires base != []
    ensures Located(base, Inside(name, leaves)) == Located(Join(base, name), leaves)
  {
    forall i | 0 <= i < |leaves|
      ensures Located(base, Inside(name, leaves))[i] == Located(Join(base, name), leaves)[i]
    {
      assert ([name] + leaves[i].path)[1..] == leaves[i].path;
    }
  }

  /** The files below a directory are the leaves of its tree, each at its full path. */
  lemma {:induction false} ListingIsLeaves(base: Bytes, nodes: seq<Node>)
    requires base != []
    ensures FilesBelow(base, nodes) == Located(base, Leaves(nodes))
    decreases nodes
  {
    hide IsDots, Join, Located;
    if nodes == [] {
      NothingLocated(base);
    } else {
      ListingIsLeaves(base, nodes[1..]);
      if IsDots(nodes[0].name) {
        assert [] + Leaves(nodes[1..]) == Leaves(nodes[1..]);
      } else {
        LocatedOfConcat(base, LeavesAt(nodes[0]), Leaves(nodes[1..]));
        if nodes[0].DirNode? {
          ListingIsLeaves(Join(base, nodes[0].name), nodes[0].children);
          LocatedInside(base, nodes[0].name, Leaves(nodes[0].children));
        } else {
          OneLocated(base, nodes[0].name, nodes[0].data);
        }
      }
    }
  }

  lemma {:induction false} NothingLocated(base: Bytes)
    requires base != []
    ensures Located(base, []) == []
  {
  }

  lemma {:induction false} OneLocated(base: Bytes, name: Bytes, data: Bytes)
    requires base != []
    ensures Located(base, [Leaf([name], data)]) == [TarCursor.Found(Join(base, name), data)]
  {
    var r := Located(base, [Leaf([name], data)]);
    assert Descend(base, [name]) == Join(base, name) by { assert [name][1..] == []; }
    assert r[0] == TarCursor.Found(Join(base, name), data);
  }
}
