/** The file system the transfers work on: resolved paths, directories and regular files. */
module FileSystem {
  import opened CLib
  import opened SafePath
  import opened FileTree

  /** A resolved path: its components, without empty ones and ".". */
  type Path = seq<Bytes>

  datatype FsNode = Directory | Regular(data: Bytes)
  type Nodes = map<Path, FsNode>

  predicate IsSkipped(component: Bytes) { component == [] || component == [DOT] }

  function WithoutSkipped(parts: seq<Bytes>): Path {
    if parts == [] then [] else KeptComponent(parts[0]) + WithoutSkipped(parts[1..])
  }

  function KeptComponent(part: Bytes): Path {
    if IsSkipped(part) then [] else [part]
  }

  /** What a path string denotes. */
  function Resolve(path: Bytes): Path {
    WithoutSkipped(Components(path))
  }

  lemma {:induction false} WithoutSkippedOfConcat(xs: seq<Bytes>, ys: seq<Bytes>)
    ensures WithoutSkipped(xs + ys) == WithoutSkipped(xs) + WithoutSkipped(ys)
  {
    hide KeptComponent;
    if xs == [] {
      assert xs + ys == ys;
    } else {
      WithoutSkippedOfConcat(xs[1..], ys);
      assert (xs + ys)[1..] == xs[1..] + ys;
      Associative(KeptComponent(xs[0]), WithoutSkipped(xs[1..]), WithoutSkipped(ys));
    }
  }

  lemma {:induction false} FirstSlashIs(path: Bytes, i: nat)
    requires i <= |path| && (i < |path| ==> path[i] == SLASH)
    requires forall j :: 0 <= j < i ==> path[j] != SLASH
    ensures FirstSlash(path, 0) == i
  {
  }

  lemma {:induction false} ComponentsOfJoin(a: Bytes, b: Bytes)
    ensures Components(a + [SLASH] + b) == Components(a) + Components(b)
    decreases |a|
  {
    hide FirstSlash;
    var whole := a + [SLASH] + b;
    var i := FirstSlash(a, 0);
    FirstSlashIs(whole, i);
    if i == |a| {
      assert whole[..i] == a && whole[i + 1..] == b;
    } else {
      ComponentsOfJoin(a[i + 1..], b);
      assert whole[..i] == a[..i];
      assert whole[i + 1..] == a[i + 1..] + [SLASH] + b;
      Associative([a[..i]], Components(a[i + 1..]), Components(b));
    }
  }

  /** Resolution goes component by component. */
  lemma {:induction false} ResolveOfJoin(a: Bytes, b: Bytes)
    ensures Resolve(a + [SLASH] + b) == Resolve(a) + Resolve(b)
  {
    ComponentsOfJoin(a, b);
    WithoutSkippedOfConcat(Components(a), Components(b));
  }

  predicate SlashFree(s: Bytes) { forall i :: 0 <= i < |s| ==> s[i] != SLASH }

  lemma {:induction false} ResolveOfComponent(c: Bytes)
    requires SlashFree(c)
    ensures Components(c) == [c]
    ensures Resolve(c) == if IsSkipped(c) then [] else [c]
  {
    FirstSlashIs(c, |c|);
    assert Components(c)[1..] == [];
    assert KeptComponent(c) + WithoutSkipped([]) == KeptComponent(c);
  }

  lemma {:induction false} ResolveOfNothing()
    ensures Resolve([]) == []
  {
    ResolveOfComponent([]);
  }

  /** Entering a directory entry appends its name. */
  lemma {:induction false} ResolveOfEntry(path: Bytes, name: Bytes)
    requires path != [] && ValidEntryName(name) && !IsDots(name)
    ensures Resolve(Join(path, name)) == Resolve(path) + [name]
  {
    ResolveOfComponent(name);
    if path[|path| - 1] != SLASH {
      ResolveOfJoin(path, name);
    } else {
      var front := path[..|path| - 1];
      assert Join(path, name) == front + [SLASH] + name && path == front + [SLASH] + [];
      ResolveOfJoin(front, name);
      ResolveOfJoin(front, []);
      ResolveOfNothing();
      assert Resolve(front) + [] == Resolve(front);
    }
  }

  // ---------------------------------------------------------------------------------------------
  // Well-formed file systems and what the operations do to them
  // ---------------------------------------------------------------------------------------------

  predicate IsDirectory(nodes: Nodes, p: Path) { p in nodes && nodes[p].Directory? }

  /** `k` lies at `p` or somewhere below it; or strictly below. */
  predicate AtOrUnder(p: Path, k: Path) { p <= k }
  predicate Under(p: Path, k: Path) { p < k }

  lemma {:induction false} AtOrUnderMeaning(p: Path, k: Path)
    ensures AtOrUnder(p, k) <==> p == k || Under(p, k)
  {
    if p <= k && |p| == |k| {
      assert k[..|p|] == k;
    }
  }

  lemma {:induction false} UnderParent(p: Path, k: Path)
    requires p != []
    ensures AtOrUnder(k, Parent(p)) <==> Under(k, p)
  {
    if k <= Parent(p) { assert p[..|k|] == Parent(p)[..|k|]; }
    if k < p { assert Parent(p)[..|k|] == p[..|k|]; }
  }

  function Parent(p: Path): Path
    requires p != []
  {
    p[..|p| - 1]
  }

  /** The root is there, and everything is in a directory. */
  ghost predicate WellFormedFs(nodes: Nodes) {
    && IsDirectory(nodes, [])
    && forall p :: p in nodes && p != [] ==> IsDirectory(nodes, Parent(p))
  }

  datatype FsResult = FsResult(nodes: Nodes, ok: bool)

  /** `fs_mkdir`: fails on anything that exists, and outside a directory. */
  function MakeDirectory(nodes: Nodes, p: Path): FsResult {
    if p in nodes || p == [] || !IsDirectory(nodes, Parent(p)) then FsResult(nodes, false)
    else FsResult(nodes[p := Directory], true)
  }

  /** `fs_open` for creation of a file that is not there. */
  function CreateFile(nodes: Nodes, p: Path): FsResult {
    if p in nodes || p == [] || !IsDirectory(nodes, Parent(p)) then FsResult(nodes, false)
    else FsResult(nodes[p := Regular([])], true)
  }

  /** Sequential `fs_write` to an open file. */
  function AppendToFile(nodes: Nodes, p: Path, data: Bytes): Nodes {
    if p in nodes && nodes[p].Regular? then nodes[p := Regular(nodes[p].data + data)] else nodes
  }

  /** Nothing at or below `p` but `p` itself. */
  predicate IsLeaf(nodes: Nodes, p: Path) {
    forall k :: k in nodes ==> !Under(p, k)
  }

  /** `fs_unlink`: removes a file or an empty directory, and nothing else. */
  function Unlink(nodes: Nodes, p: Path): FsResult {
    if p in nodes && p != [] && IsLeaf(nodes, p) then FsResult(nodes - {p}, true) else FsResult(nodes, false)
  }

  /** Create a directory unless something is already there. */
  function EnsureDirectory(nodes: Nodes, p: Path): FsResult {
    if p in nodes then FsResult(nodes, true) else MakeDirectory(nodes, p)
  }

  /** Create every missing directory on the way to `p`, outermost first. */
  function MakeDirectories(nodes: Nodes, p: Path): FsResult {
    if p == [] then FsResult(nodes, true)
    else
      var r := MakeDirectories(nodes, Parent(p));
      if !r.ok then r else EnsureDirectory(r.nodes, p)
  }

  /** `after` has everything `before` has, plus directories on the way to `p`. */
  ghost predicate Grown(before: Nodes, after: Nodes, p: Path) {
    && (forall k :: k in before ==> k in after && after[k] == before[k])
    && (forall k :: k in after && k !in before ==> k != [] && AtOrUnder(k, p) && after[k] == Directory)
  }

  lemma {:induction false} MakeDirectoriesMakes(nodes: Nodes, p: Path)
    requires WellFormedFs(nodes)
    ensures var r := MakeDirectories(nodes, p);
            WellFormedFs(r.nodes) && Grown(nodes, r.nodes, p) && (r.ok ==> p in r.nodes)
  {
    if p != [] {
      MakeDirectoriesMakes(nodes, Parent(p));
      var r := MakeDirectories(nodes, Parent(p));
      forall k | k in r.nodes && k !in nodes ensures AtOrUnder(k, p) { UnderParent(p, k); }
      EnsureDirectoryKeeps(r.nodes, p);
    }
  }

  lemma {:induction false} EnsureDirectoryKeeps(nodes: Nodes, p: Path)
    requires WellFormedFs(nodes) && p != []
    ensures var r := EnsureDirectory(nodes, p);
            WellFormedFs(r.nodes) && Grown(nodes, r.nodes, p) && (r.ok ==> p in r.nodes)
  {
  }

  /** It succeeds when no file is in the way. */
  lemma {:induction false} MakeDirectoriesSucceeds(nodes: Nodes, p: Path)
    requires WellFormedFs(nodes)
    requires forall k :: k in nodes && Under(k, p) ==> nodes[k].Directory?
    ensures MakeDirectories(nodes, p).ok
  {
    if p != [] {
      var q := Parent(p);
      forall k | k in nodes && Under(k, q) ensures nodes[k].Directory? {
        UnderParent(p, k);
      }
      MakeDirectoriesSucceeds(nodes, q);
      MakeDirectoriesMakes(nodes, q);
      UnderParent(p, q);
      var r := MakeDirectories(nodes, q);
      assert q in nodes ==> nodes[q].Directory?;
    }
  }

  predicate EmptyDirectory(nodes: Nodes, d: Path) {
    IsDirectory(nodes, d) && IsLeaf(nodes, d)
  }

  /** Nothing outside `d` has changed, and `d` itself is still there. */
  ghost predicate SameElsewhere(start: Nodes, d: Path, nodes: Nodes) {
    forall p :: !Under(d, p) ==> (p in nodes <==> p in start) && (p in nodes ==> nodes[p] == start[p])
  }

  lemma {:induction false} AncestorsAreDirectories(nodes: Nodes, p: Path, k: Path)
    requires WellFormedFs(nodes) && p in nodes && Under(k, p)
    ensures IsDirectory(nodes, k)
  {
    UnderParent(p, k);
    if k != Parent(p) {
      assert Under(k, Parent(p));
      AncestorsAreDirectories(nodes, Parent(p), k);
    }
  }

  lemma {:induction false} UnderConcat(d: Path, a: Path, b: Path)
    ensures AtOrUnder(d + a, d + b) <==> AtOrUnder(a, b)
    ensures Under(d + a, d + b) <==> Under(a, b)
  {
    if d + a <= d + b {
      assert a == (d + a)[|d|..] && b == (d + b)[|d|..];
      assert (d + b)[..|d + a|] == d + a;
      assert b[..|a|] == (d + b)[|d|..][..|a|] == (d + b)[|d|..|d| + |a|] == a;
    }
    if a <= b {
      assert (d + b)[..|d + a|] == d + b[..|a|];
    }
  }

  lemma {:induction false} Comparable(a: Path, b: Path, c: Path)
    requires AtOrUnder(a, c) && AtOrUnder(b, c)
    ensures AtOrUnder(a, b) || Under(b, a)
  {
    if |a| <= |b| {
      assert b[..|a|] == c[..|b|][..|a|] == c[..|a|];
    } else {
      assert a[..|b|] == c[..|a|][..|b|] == c[..|b|];
    }
  }
}
